# Meeting store model

A Dafny model of the meeting scheduler's local record store and the two
screens that drive it.

- **Store** (`core_data_manager.dfy`): the Core Data manager as a class. It has
  the working set `records`, the committed state `persisted`, the context's
  `hasChanges` as `dirty`, an identity counter `nextId`, and a ghost
  `notifications` counter that stands for the "meeting list changed"
  broadcast. The object invariant `Valid()` says that identities are distinct
  and that a clean context has nothing left to commit
  (`!dirty ==> persisted == records`). Each operation says what the new state is.
- **Meeting** (`meeting_model.dfy`): the stored record. It has an identity and
  three independently optional strings. It also defines the `unwrappedName`
  sort key.
- **StringOrder** (`string_order.dfy`): Swift's `String <` as the
  lexicographic order on characters, proved to be a strict total order. This
  makes "sorted by name" a meaningful promise.
- **AddMeetingScreen** (`add_meeting.dfy`): the add button's decision (missing
  data, conflict, add) and the three conflict handlers. Alerts are result values.
- **MeetingsListScreen** (`meetings_list.dfy`): turns the fetched records into
  rows, keeps the table and placeholder visibility complementary, and handles
  the delete confirmation.

Two behaviours of the code that are easy to misread:
- Records with a missing field are dropped by the list screen's `updateData`,
  not by the store. `fetchMeetings` returns every record, sorted.
- `updateMeeting` posts its notification even when no record matches.

## Model

| member | source | states |
|---|---|---|
| `StringOrder.LessIrreflexive` | TestTask/TestTask/Managers/CoreDataManager.swift:100 | no name sorts strictly before itself |
| `StringOrder.LessTransitive` | TestTask/TestTask/Managers/CoreDataManager.swift:100 | the name order `<` is transitive |
| `StringOrder.LessTrichotomy` | TestTask/TestTask/Managers/CoreDataManager.swift:100 | any two names are equal or one is strictly smaller |
| `StringOrder.LessAsymmetric` | TestTask/TestTask/Managers/CoreDataManager.swift:100 | `a < b` excludes `b < a` |
| `StringOrder.LessImpliesLessEq` | TestTask/TestTask/Managers/CoreDataManager.swift:100 | a strictly smaller name may stand before the larger one |
| `StringOrder.LessEqReflexive` | TestTask/TestTask/Managers/CoreDataManager.swift:100 | a name may stand before an equal name |
| `StringOrder.LessEqTransitive` | TestTask/TestTask/Managers/CoreDataManager.swift:100 | "may stand before" is transitive, so sortedness is a consistent notion |
| `StringOrder.LessEqTotal` | TestTask/TestTask/Managers/CoreDataManager.swift:100 | of any two names, one may stand before the other |
| `Meeting.OrEmpty` | TestTask/TestTask/Presentation/AddMeeting/AddMeetingViewController.swift:138-140 | present text is kept as it is; absent text becomes "" |
| `Meeting.UnwrappedName` | TestTask/TestTask/DataBase/MeetingModel/MeetingModel+CoreDataProperties.swift:18-24 | the key is the stored name when present, "" when absent; it is a total function of the record and changes nothing |
| `Meeting.NamelessSortsAsEmpty` | TestTask/TestTask/DataBase/MeetingModel/MeetingModel+CoreDataProperties.swift:23 | a nameless record has the same key as one named "", so neither sorts before the other |
| `Store.Matching` | TestTask/TestTask/Managers/CoreDataManager.swift:67-69 | the `name == n` fetch yields exactly the records whose name is present and equal to `n` |
| `Store.FreshId` | TestTask/TestTask/Managers/CoreDataManager.swift:74 | a new object's identity differs from every stored identity |
| `Store.WithoutId` | TestTask/TestTask/Managers/CoreDataManager.swift:103-105 | deletion keeps exactly the records with another identity, and keeps identities distinct |
| `Store.InsertByName` | TestTask/TestTask/Managers/CoreDataManager.swift:100 | inserting into the reference sort adds exactly that record to the multiset |
| `Store.SortByName` | TestTask/TestTask/Managers/CoreDataManager.swift:100 | the reference sort is a permutation of its input |
| `Store.InsertByNameSorted` | TestTask/TestTask/Managers/CoreDataManager.swift:100 | inserting into a name-sorted table keeps it sorted |
| `Store.SortByNameSorted` | TestTask/TestTask/Managers/CoreDataManager.swift:100 | the reference sort's output is sorted ascending by `unwrappedName` |
| `Store.MatchingAppend` | TestTask/TestTask/Managers/CoreDataManager.swift:73-80 | inserting a record adds it to the matches of its own name and no other |
| `Store.MatchingCountAfterUpdate` | TestTask/TestTask/Managers/CoreDataManager.swift:88-92 | rewriting a record named `n` in place keeps the number of records named `n` |
| `Store.WithoutIdLength` | TestTask/TestTask/Managers/CoreDataManager.swift:103-105 | with distinct identities, delete removes exactly one record if the identity is present; otherwise the table is unchanged |
| `Store.SortedPair` | TestTask/TestTask/Managers/CoreDataManager.swift:100 | a sorted permutation of two records with different keys is fixed: key order |
| `Store.FetchOfTwo` | TestTask/TestTask/Managers/CoreDataManager.swift:97-101 | a fetch of a table holding "B" then "A" lists "A" first |
| `Store.FetchAfterTwoAdds` | TestTask/TestTask/Managers/CoreDataManager.swift:73-101 | adding "B" then "A" to an empty store and fetching gives A before B, each with its own values |
| `Store.CoreDataManager.constructor` | TestTask/TestTask/Managers/CoreDataManager.swift:44-60 | the store opens on the persisted records, clean, with no notification posted |
| `Store.CoreDataManager.CheckIfMeetingExists` | TestTask/TestTask/Managers/CoreDataManager.swift:66-71 | true iff some record's name is present and exactly equal to the given name |
| `Store.CoreDataManager.PostNotification` | TestTask/TestTask/Managers/CoreDataManager.swift:115-119 | each post adds exactly one to the notification count |
| `Store.CoreDataManager.AddMeeting` | TestTask/TestTask/Managers/CoreDataManager.swift:73-82 | appends exactly one new record with a fresh identity and the three values; existing records are untouched; no duplicate check, so the count of that name grows by one; the name exists afterwards; dirty; one notification |
| `Store.CoreDataManager.UpdateMeeting` | TestTask/TestTask/Managers/CoreDataManager.swift:84-95 | with no record of that name, the table and the dirty flag are unchanged; otherwise exactly one record named `n` gets `d` and `p`, keeps its name and identity, and every other record (other records named `n` included) is untouched; one notification either way |
| `Store.CoreDataManager.FetchMeetings` | TestTask/TestTask/Managers/CoreDataManager.swift:97-101 | returns a permutation of all records, incomplete ones included, sorted ascending by `unwrappedName` |
| `Store.CoreDataManager.RemoveMeeting` | TestTask/TestTask/Managers/CoreDataManager.swift:103-105 | removes exactly the record with that identity and keeps the others in order; no notification |
| `Store.CoreDataManager.Save` | TestTask/TestTask/Managers/CoreDataManager.swift:107-109 | when dirty, commits the working set and clears the flag; when clean, changes nothing; afterwards `persisted == records` |
| `AddMeetingScreen.TapDecision` | TestTask/TestTask/Presentation/AddMeeting/AddMeetingViewController.swift:137-157 | missing-data alert iff the name or date text is empty or absent; conflict iff both are filled in and the name exists, with the entered values; add iff both are filled in and the name is new |
| `AddMeetingScreen.EmptyPurposeAccepted` | TestTask/TestTask/Presentation/AddMeeting/AddMeetingViewController.swift:142 | an empty or absent purpose never triggers the missing-data alert |
| `AddMeetingScreen.AddMeeting` | TestTask/TestTask/Presentation/AddMeeting/AddMeetingViewController.swift:159-162 | one store insert with the given values (fresh identity, count of that name +1, dirty, persisted state kept, one notification), then the "added" alert |
| `AddMeetingScreen.UpdateMeeting` | TestTask/TestTask/Presentation/AddMeeting/AddMeetingViewController.swift:164-167 | one store update with the given values (one matching record rewritten, or nothing; dirty iff it was or a record matched; persisted state kept; one notification), then the "updated" alert |
| `AddMeetingScreen.AddMeetingTap` | TestTask/TestTask/Presentation/AddMeeting/AddMeetingViewController.swift:137-157 | the outcome is the tap decision on the existence query; only a valid entry with a new name reaches the store, as exactly one insert of those values with one notification; every other outcome leaves the store unchanged |
| `AddMeetingScreen.ResolveConflict` | TestTask/TestTask/Presentation/AddMeeting/AddMeetingViewController.swift:179-203 | "Добавить" adds a second record with the same name and "Обновить" performs the update, each with the full new store state including one notification; "Отмена" changes nothing |
| `MeetingsListScreen.CellModels` | TestTask/TestTask/Presentation/MeetingsList/MeetingsListViewController.swift:112-129 | one row per complete fetched record (the row count is the number of complete records), each row showing its record's three values unchanged |
| `MeetingsListScreen.CellModelsInFetchOrder` | TestTask/TestTask/Presentation/MeetingsList/MeetingsListViewController.swift:112-129 | the rows' records are the fetched records with some left out and the rest in fetch order |
| `MeetingsListScreen.CellModelsMultiplicity` | TestTask/TestTask/Presentation/MeetingsList/MeetingsListViewController.swift:112-129 | a complete record gets exactly as many rows as it has occurrences in the fetch; a record with a missing field gets none |
| `MeetingsListScreen.CellModelsSorted` | TestTask/TestTask/Presentation/MeetingsList/MeetingsListViewController.swift:112-129 | rows built from a name-sorted fetch are sorted by name |
| `MeetingsListScreen.DistinctIdsOccurOnce` | TestTask/TestTask/Managers/CoreDataManager.swift:97-101 | with distinct identities each record occurs at most once in the table, hence in the fetch |
| `MeetingsListScreen.RowsOfFetch` | TestTask/TestTask/Presentation/MeetingsList/MeetingsListViewController.swift:112-129 | rows built from any sorted fetch of the store list each complete stored record in exactly one row and nothing else, sorted by name |
| `MeetingsListScreen.MeetingsList.constructor` | TestTask/TestTask/Presentation/MeetingsList/MeetingsListViewController.swift:47-52 | creating the screen only reads the store and leaves it listing each complete stored record in exactly one row, sorted by name, with the visibility flags set |
| `MeetingsListScreen.MeetingsList.NumberOfRows` | TestTask/TestTask/Presentation/MeetingsList/MeetingsListViewController.swift:71-73 | the count is the number of row models; it is zero exactly when the table is hidden and the placeholder shown; after a refresh it equals the number of complete stored records |
| `MeetingsListScreen.MeetingsList.UpdateData` | TestTask/TestTask/Presentation/MeetingsList/MeetingsListViewController.swift:111-135 | afterwards each complete stored record is in exactly one row with its own values, no other record has a row, the rows are sorted by name, and the table is hidden iff there are no rows and the placeholder iff there are rows |
| `MeetingsListScreen.MeetingsList.DeleteAlert` | TestTask/TestTask/Presentation/MeetingsList/MeetingsListViewController.swift:137-151 | confirming deletes the record by identity (dirty iff it was or the record was present; persisted state and identity counter kept; no notification) and refreshes, so the rows list exactly the remaining complete records and none refers to the deleted one; dismissing changes nothing |

## Left out

- Core Data itself is not modelled: the container, store loading, fetch requests and predicate evaluation. The store is an in-memory sequence, and the `name == %@` predicate is exact string equality.
- Backend failures swallowed by `try?` (fetch and save) are not modelled. Every fetch and save succeeds.
- Swift's `String <` uses Unicode canonical ordering. The model compares characters lexicographically, with no normalisation.
- Store.CoreDataManager.FetchMeetings: promises a sorted permutation only, not stability and not one particular order among records with equal keys, because Swift's `sorted` promises neither. `SortByName` is a reference sort used to prove that such a result exists.
- Store.CoreDataManager.UpdateMeeting: an unsorted fetch's `.first` may return any matching record, so the contract says "some matching record", not which one.
- Store.CoreDataManager.UpdateMeeting: `hasChanges` is taken to become true whenever a matching record is assigned, even if the values are the same.
- Store.CoreDataManager.RemoveMeeting: deleting a record marks the store dirty even when that record was an unsaved insert, which the database may simply drop, leaving `hasChanges` false; the next save then writes a working set equal to the persisted one, so nothing observable differs.
- Store.CoreDataManager.RemoveMeeting: deleting an object that is not in the table is backend-defined. The model treats it as a no-op that leaves the dirty flag as it was.
- Object identity is a natural-number `id` handed out by the store. Callers hold records as values, so a row's captured record can be stale; deletion goes by identity only.
- The notification is a ghost counter. Observers and the list screen's 3-second delayed refresh are event-loop timing and are not modelled.
- `AppDelegate` calls `save` when the app resigns active. This lifecycle hook is not modelled beyond `Save` itself.
- `[weak self]` in the alert handlers is not modelled. Once the screen is gone, the real handler does nothing.
- UIKit views, layout, `reloadData`, cell configuration, `TextField` inset geometry (floating point), the tab bar and `MeetingInfoCell` are not modelled. `AlertBuilder` is not part of this model. Alerts are result values.
- `DatesTimePickerManager` and the date-range string builder are not part of this model. The date is an opaque string.
