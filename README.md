# java-kanban core in Dafny

A model of the in-memory core of the java-kanban task tracker, with proofs about it.

The tracker keeps three kinds of work item: plain tasks, epics, and subtasks that belong to an epic. `AllTasksRepository` holds them in three id-keyed maps plus a `TreeSet` ordered by start time. It keeps each epic's status and time window in step with its subtasks, and refuses a task or subtask whose time window overlaps that of another item in the prioritized set. `InMemoryTaskManager` sits in front of it and does three things:
- hands out ids;
- records every item read by id in a bounded `InMemoryHistoryManager`;
- evicts deleted items from that history.

`HistoryFormatter` and `TaskFactoryLoadFromCsvFile` turn the history and single items into text and back.

Modules, in dependency order:

- `Wrappers`: `Option` and `Result`.
- `Text`: decimal printing and `Integer.parseInt`, `String.split`, `String.join` and ASCII `toUpperCase`.
- `Model`: `Task`, `Epic` and `Subtask` as one datatype. It covers their constructors, `getEndTime`, `equals`/`hashCode`, and the type and status names, plus `toCsvString`.
- `Rollup`: the epic status and time rollup, as functions of the epic's subtask list and the subtask map.
- `PrioritySet`: the comparator and the `TreeSet` operations (`add`, `remove`, `removeAll`), on a strictly ascending sequence.
- `Overlap`: `isTimeOverlap` and `checkForTimeOverlap`.
- `Store`: the repository's four fields as one value, its invariant, and every repository operation as a pure transition. Two operations are also modelled as written, for the findings below.
- `StoreProperties`, `UpdateProperties` and `DeleteProperties`: the effect of each transition, and the proof that it keeps the invariant.
- `PrioritizedProperties`: when the prioritized set holds every stored task and subtask, and a state in which it does not.
- `Repository`: the class `AllTasksRepository`, with the Java fields. Its methods update those fields step by step, with the source's loops. Each is proved to perform the matching `Store` transition and to keep `Valid()`.
- `HistoryManager`: the bounded history as a function and as the class `InMemoryHistoryManager`.
- `TaskManager`: the class `InMemoryTaskManager`, which holds a repository object, a history object and the id counter.
- `HistoryFormatter` and `CsvFactory`: the two text codecs and their round trips.

Behaviour of the code that a reader might not expect, modelled as the code has it:
- The history keeps duplicates. `add` appends and drops the oldest entry once ten are stored; it never removes an earlier view of the same item.
- An epic whose subtasks are only NEW and IN_PROGRESS is NEW. IN_PROGRESS needs both a NEW and a DONE subtask, or only IN_PROGRESS subtasks.
- `deleteAllSubtaskType` empties each epic's list and sets it to NEW, but leaves its start, duration and end as they were.
- Two dated items with the same start compare equal. The set therefore ignores the second one, although it is stored in its map. The overlap check reads only the set, so it no longer sees that item either.

## Model

| member | source | states |
|---|---|---|
| Text.ParseInt | src/model/TaskFactoryLoadFromCsvFile.java:33 | A parsed number lies in the `int` range and is the decimal value of the text. Conversely, every signed decimal text whose value lies in the `int` range is accepted with that value. |
| Text.ParseIntRoundTrip | src/formatter/HistoryFormatter.java:17-26 | `Integer.parseInt` reads back every `int` that `String.valueOf` printed. |
| Text.DropTrailingEmpty | src/model/TaskFactoryLoadFromCsvFile.java:28 | `split` keeps a prefix of the pieces that does not end in an empty piece. Every piece it drops is empty. |
| Text.SplitJoin | src/formatter/HistoryFormatter.java:19-23 | `split` undoes `join` when no piece holds the delimiter and, with two or more pieces, the last is non-empty. |
| Text.SplitJoinTrailing | src/model/TaskFactoryLoadFromCsvFile.java:28 | Splitting a line that ends with the delimiter gives back the fields without the trailing empty one. |
| Text.ToUpperCaseOfUpper | src/model/TaskFactoryLoadFromCsvFile.java:36 | `toUpperCase` leaves a text with no lower-case letter unchanged. |
| Model.EndTimeOfScheduled | src/model/Task.java:98-100 | A task or subtask has an end exactly when it has a start. It ends `durationInMinutes` after it starts. |
| Model.EndTimeOfEpic | src/model/Epic.java:30-37 | An epic's end time is its stored field, whatever its start and duration. `setEndTime` alone changes it. |
| Model.ConstructorDefaults | src/model/Task.java:21-44 | Constructors without an id give id 0. Without a status they give NEW, and without times the default start and duration. |
| Model.EpicConstructorDefaults | src/model/Epic.java:14-24 | A new epic has no subtask ids and no end time. |
| Model.SubtaskConstructorDefaults | src/model/Subtask.java:14-34 | A new subtask keeps its epic id, its start and its duration. |
| Model.EqualsIgnoresSchedule | src/model/Task.java:115-121 | `equals` ignores start and duration, an epic's list and end time, and a subtask's epic id. |
| Model.EqualsAgreesWithHashCode | src/model/Task.java:115-126 | `equals` is reflexive, symmetric and transitive, and equal items have equal `hashCode`. |
| Model.Wrap32 | src/model/Task.java:123-126 | The `int` arithmetic of `hashCode` always lands in the `int` range and is congruent to the exact value modulo 2^32. |
| Model.TypeFromName | src/model/TaskFactoryLoadFromCsvFile.java:34 | `TaskType.valueOf` accepts a text only if it is the name of the type it returns. |
| Model.StatusFromName | src/model/TaskFactoryLoadFromCsvFile.java:36 | `Status.valueOf` accepts a text only if it is the name of the status it returns. |
| Model.NamesRoundTrip | src/model/Task.java:94-96 | `valueOf` reads back every type and status name that is printed. Upper-casing a status name changes nothing. |
| Model.TimeTextShape | src/model/Task.java:109-111 | A printed time is non-empty and holds no delimiter. A date never prints as `null`. |
| CsvFactory.StartFromText | src/model/TaskFactoryLoadFromCsvFile.java:38-40 | `null` gives the default start. Any other text succeeds exactly when it parses as a time, and gives that time. |
| CsvFactory.FromFields | src/model/TaskFactoryLoadFromCsvFile.java:29-59 | Fewer than eight fields is exactly the insufficient-fields error. On success, each field of the item is the parse of its column; an epic gets no times. |
| CsvFactory.FromFieldsErrorOrder | src/model/TaskFactoryLoadFromCsvFile.java:29-59 | The first column that fails decides the error, in reading order: id, type, status, start, duration, then a subtask's epic id. A bad id, duration or epic id is a number-format error; a bad type or status an argument error; a bad start a parse error; a subtask line with no ninth field an index error. A task or epic line that passes the five checks is read. |
| CsvFactory.EndTimeFieldIgnored | src/model/TaskFactoryLoadFromCsvFile.java:33-54 | The eighth column, the end time, never affects the result. |
| CsvFactory.FieldsOfCsv | src/model/Task.java:102-113 | No field `toCsvString` writes holds the delimiter, and the end-time field is never empty. |
| CsvFactory.SplitOfCsv | src/model/Subtask.java:51-56 | Splitting a written line gives its eight fields, plus the epic id for a subtask. |
| CsvFactory.StartRoundTrip | src/model/TaskFactoryLoadFromCsvFile.java:38-40 | Reading back a printed start, `null` included, gives that start. |
| CsvFactory.FromWrittenFields | src/model/TaskFactoryLoadFromCsvFile.java:33-54 | The fields of a written item read back as that item. An epic comes back without its subtask list, times and end time. |
| CsvFactory.CreateTaskRoundTrip | src/model/TaskFactoryLoadFromCsvFile.java:27-60 | `createTask(toCsvString(t))` gives back `t` when its texts hold no delimiter and its numbers fit in `int`; an epic comes back without its derived fields. |
| HistoryFormatter.Ids | src/formatter/HistoryFormatter.java:15-18 | The ids of the history, one per entry and in order. |
| HistoryFormatter.NonEmptyPieces | src/formatter/HistoryFormatter.java:25 | Exactly the non-empty pieces are kept. |
| HistoryFormatter.ParseEach | src/formatter/HistoryFormatter.java:26 | The list parses exactly when every piece parses, and then holds each piece's value in order. |
| HistoryFormatter.HistoryRoundTrip | src/formatter/HistoryFormatter.java:14-27 | `historyFromString(historyToString(h))` gives the ids of `h` in order. |
| HistoryFormatter.EmptyHistory | src/formatter/HistoryFormatter.java:14-27 | The text is empty exactly when the history is, and the empty text reads back as no ids. |
| HistoryFormatter.NoTrailingDelimiter | src/formatter/HistoryFormatter.java:19 | A non-empty history text never ends with the delimiter. |
| HistoryFormatter.NonNumericPieceRejected | src/formatter/HistoryFormatter.java:23-26 | One non-empty piece that is not an `int` makes the whole text unreadable. |
| HistoryManager.AppendBounded | src/service/InMemoryHistoryManager.java:17-23 | The item is appended last. Below ten entries nothing is lost; at ten, the oldest entry goes. |
| HistoryManager.AppendBoundedStaysBounded | src/service/InMemoryHistoryManager.java:17-23 | A history of at most ten entries stays at most ten. |
| HistoryManager.AppendBoundedIsLatest | src/service/InMemoryHistoryManager.java:17-23 | One `add` leaves the last ten of the old history followed by the item. |
| HistoryManager.HistoryKeepsLatest | src/service/InMemoryHistoryManager.java:17-23 | Any run of `add` calls leaves exactly the last ten items viewed, oldest first. |
| HistoryManager.NoDeduplication | src/service/InMemoryHistoryManager.java:17-23 | Below the bound, viewing an item already in the history adds one more occurrence. |
| HistoryManager.RemoveId | src/service/InMemoryTaskManager.java:142-146 | Removing an id leaves no entry with that id and never lengthens the history. |
| HistoryManager.RemoveIdMembers | src/service/InMemoryTaskManager.java:142-146 | Exactly the entries with other ids remain. Removing an absent id changes nothing. |
| HistoryManager.RemoveIdIdempotent | src/service/InMemoryTaskManager.java:142-146 | Removing the same id twice is the same as removing it once. |
| HistoryManager.InMemoryHistoryManager.constructor | src/service/InMemoryHistoryManager.java:13-15 | A new history is empty. |
| HistoryManager.InMemoryHistoryManager.Add | src/service/InMemoryHistoryManager.java:17-23 | `add` performs `AppendBounded` on the field and keeps it within ten entries. |
| HistoryManager.InMemoryHistoryManager.GetHistory | src/service/InMemoryHistoryManager.java:25-28 | Returns the stored history, which holds at most ten entries. |
| HistoryManager.InMemoryHistoryManager.Remove | src/service/InMemoryTaskManager.java:142-146 | `remove(id)` performs `RemoveId` on the field. |
| Rollup.EpicStatusCases | src/repository/AllTasksRepository.java:117-145 | NEW when there are no subtasks or NEW without DONE. DONE when DONE without NEW. IN_PROGRESS otherwise. Each case holds in both directions. |
| Rollup.UniformStatus | src/repository/AllTasksRepository.java:117-145 | Subtasks that all share one status give the epic that status. |
| Rollup.StatusRollupIgnoresOrder | src/repository/AllTasksRepository.java:117-145 | The rollup depends only on which statuses occur, not on their order or count. |
| Rollup.StatusesOfResolved | src/repository/AllTasksRepository.java:126-127 | With every listed id stored, the statuses are those of the listed subtasks, in list order. |
| Rollup.MinStartTime | src/repository/AllTasksRepository.java:310-316 | Returns one of the two starts. It is `null` only when both are, and otherwise no later than either dated one. |
| Rollup.MaxEndTime | src/repository/AllTasksRepository.java:318-324 | Returns one of the two ends. It is `null` only when both are, and otherwise no earlier than either dated one. |
| Rollup.StartOfIsEarliest | src/repository/AllTasksRepository.java:155-171 | The epic's start is `null` only when no listed subtask has a start. Otherwise it is one listed subtask's start, and no listed start is earlier. |
| Rollup.EndOfIsLatest | src/repository/AllTasksRepository.java:156-171 | The epic's end is `null` only when no listed subtask has an end. Otherwise it is one listed subtask's end, and no listed end is later. |
| Rollup.DurationOfAppend | src/repository/AllTasksRepository.java:157-168 | The total duration over a concatenated list is the sum of the totals over its parts. |
| Rollup.SetTimeProperties | src/repository/AllTasksRepository.java:396-400 | Sets the start, duration and end. Nothing else about the epic changes. |
| Rollup.Recalculate | src/repository/AllTasksRepository.java:386-394 | Recomputing an epic keeps its id, name, description and subtask list. |
| Rollup.RecalculateEmpty | src/repository/AllTasksRepository.java:147-153 | An epic with no subtasks becomes NEW, with the default start and duration and no end. |
| Rollup.RecalculateNonEmpty | src/repository/AllTasksRepository.java:147-172 | Otherwise its status, start, duration and end are the rollups over its listed subtasks. |
| Rollup.RecalculateIdempotent | src/repository/AllTasksRepository.java:386-389 | A recomputed epic already agrees with its subtasks. |
| Rollup.RecalculateIgnoresText | src/repository/AllTasksRepository.java:94-99 | Renaming an epic commutes with recomputing it and keeps it in step with its subtasks. |
| Rollup.RecalculateReadsOnlyListed | src/repository/AllTasksRepository.java:159-163 | The rollup reads only the subtasks the epic lists. |
| Overlap.FindOverlap | src/repository/AllTasksRepository.java:297-303 | Finds nothing exactly when no element conflicts. Otherwise it returns the first conflicting element. |
| Overlap.CheckForTimeOverlap | src/repository/AllTasksRepository.java:293-308 | Refused exactly when the item is not an epic and some item of the prioritized set with another id has a window overlapping its own. |
| Overlap.UndatedNeverConflicts | src/repository/AllTasksRepository.java:294-301 | An undated item or an epic is never refused. |
| Overlap.OwnIdNeverConflicts | src/repository/AllTasksRepository.java:300 | An item never conflicts with an item of its own id. |
| Overlap.OverlapSymmetric | src/repository/AllTasksRepository.java:402-412 | Overlap is symmetric. |
| Overlap.TouchingDoNotOverlap | src/repository/AllTasksRepository.java:402-412 | A window that ends when the other starts does not overlap it. |
| Overlap.OverlapOfIntervals | src/repository/AllTasksRepository.java:402-412 | Two dated tasks or subtasks overlap exactly when each starts strictly before the other's start plus duration, whatever the sign of the durations. |
| Overlap.OverlapRefused | src/repository/AllTasksRepository.java:293-308 | Any one overlapping item with another id is enough for a refusal. |
| PrioritySet.IntCompare | src/repository/AllTasksRepository.java:38 | `Integer.compare` is negative, zero or positive as `a` is less than, equal to or greater than `b`. |
| PrioritySet.CompareLaws | src/repository/AllTasksRepository.java:36-49 | Dated items come first, by start; undated ones follow, by id. The comparator is a strict order whose zero is an equivalence. |
| PrioritySet.InsertProperties | src/repository/AllTasksRepository.java:326-328 | `add` keeps the set ascending. An element equal under the comparator blocks it; otherwise the item joins and the rest stays. |
| PrioritySet.RemoveProperties | src/repository/AllTasksRepository.java:330-332 | `remove` keeps the set ascending. It drops exactly the element equal to the item under the comparator. |
| PrioritySet.RemoveEachProperties | src/repository/AllTasksRepository.java:382 | Removing a list one element at a time drops exactly the elements comparing equal to one of them. |
| PrioritySet.FilterOutProperties | src/repository/AllTasksRepository.java:257 | Filtering by `equals` keeps exactly the elements the list does not contain. |
| PrioritySet.RemoveAllProperties | src/repository/AllTasksRepository.java:257 | `removeAll` keeps the set ascending, adds nothing, and leaves no element of the list in the set. |
| PrioritySet.SameStartKeepsFirst | src/repository/AllTasksRepository.java:326-328 | A second item with the start of a dated member is not added. |
| PrioritySet.DistinctMembers | src/repository/AllTasksRepository.java:36-49 | Two different members of the set never compare equal. |
| PrioritySet.RemoveAllKeeps | src/repository/AllTasksRepository.java:257 | `removeAll` keeps a member that is another element than every removed item and `equals` none of them, whichever strategy it takes. |
| Store.GetTaskById | src/repository/AllTasksRepository.java:174-187 | Found exactly when the id is in some map. The plain task wins over the subtask, and the subtask over the epic. |
| Store.GetAllEpicSubtasks | src/repository/AllTasksRepository.java:210-216 | One entry per listed id, in order: the stored subtask, or `null`. |
| Store.AppendSubtaskId | src/repository/AllTasksRepository.java:351 | The epic's list gains the id at its end. |
| Store.AddTask | src/repository/AllTasksRepository.java:52-61 | Fails exactly on an overlap, a taken id in the item's own map, or a missing epic. On success the item is retrievable by its id. |
| Store.CopyNameAndDescription | src/repository/AllTasksRepository.java:94-99 | The stored epic takes the new name and description and nothing else. |
| Store.RemoveFirst | src/repository/AllTasksRepository.java:366-368 | Drops one occurrence of the id, if present, and keeps every other entry. |
| Store.RemoveFirstOfDistinct | src/repository/AllTasksRepository.java:366-368 | In a list without repeats, the removed id is gone and there are still no repeats. |
| Store.DetachSubtask | src/repository/AllTasksRepository.java:366-368 | The epic's list loses the subtask's id; its identity stays. |
| Store.ListedSubtasks | src/repository/AllTasksRepository.java:377-381 | The subtasks an epic lists, one per id, in list order. |
| Store.ClearSubtaskList | src/repository/AllTasksRepository.java:370-375 | The list is emptied and the status set to NEW. The times and the end are kept. |
| Store.ClearAllSubtaskLists | src/repository/AllTasksRepository.java:370-375 | Every epic is cleared and no epic is added or lost. |
| Store.DeletePlainBranch | src/repository/AllTasksRepository.java:225-229 | Removing a plain task keeps the store well formed. |
| Store.DeleteSubtaskBranch | src/repository/AllTasksRepository.java:231-243 | Removing a subtask and detaching it from its epic keeps the store well formed. |
| Store.DeleteEpicBranch | src/repository/AllTasksRepository.java:245-249 | Removing an epic with its subtasks keeps the store well formed. |
| Store.DeleteTaskById | src/repository/AllTasksRepository.java:222-251 | The corrected `deleteTaskById` keeps the store well formed. |
| Store.DeleteAllTasks | src/repository/AllTasksRepository.java:283-291 | Leaves the empty repository. |
| StoreProperties.EmptyStoreInv | src/repository/AllTasksRepository.java:32-50 | The new repository satisfies the invariant. |
| StoreProperties.AddTaskErrorOrder | src/repository/AllTasksRepository.java:52-61 | Overlap is checked first, then a subtask's epic, then the id in the item's own map. Each failure gives its own error. |
| StoreProperties.AddTaskEffect | src/repository/AllTasksRepository.java:342-357 | A successful add stores the item in its own map. A task or subtask is offered to the prioritized set; an epic leaves the set as it was. A subtask's epic lists it last and is recomputed from the old epic with the id appended, so it keeps its id, name and description; every other entry is unchanged. |
| StoreProperties.AddTaskKeepsInv | src/repository/AllTasksRepository.java:52-61 | A successful add keeps the invariant. |
| StoreProperties.AddPlainKeepsInv | src/repository/AllTasksRepository.java:334-340 | Storing and prioritizing a new plain task keeps the invariant. |
| StoreProperties.AddEpicKeepsInv | src/repository/AllTasksRepository.java:359-364 | Storing a new epic keeps the invariant. |
| StoreProperties.AddSubtaskKeepsInv | src/repository/AllTasksRepository.java:342-357 | Storing a new subtask, linking it and recomputing its epic keeps the invariant. |
| Store.UpdateTask | src/repository/AllTasksRepository.java:63-92 | The corrected `updateTask` fails only on an overlap. A subtask whose epic id matches the stored one, compared by value, replaces it. |
| UpdateProperties.UpdateTaskEffect | src/repository/AllTasksRepository.java:63-99 | Only an overlap fails. An unknown id or another epic changes nothing. A task or subtask replaces the stored one, the set's element equal to the old version is removed and the new one offered, and a subtask's epic is the old epic recomputed over the new subtask map, with its id, name, description and list kept. An epic takes only the new name and description. |
| UpdateProperties.UpdateTaskKeepsInv | src/repository/AllTasksRepository.java:63-72 | A successful update keeps the invariant. |
| UpdateProperties.ReplacePlainKeepsInv | src/repository/AllTasksRepository.java:74-81 | Replacing a plain task and its place in the set keeps the invariant. |
| UpdateProperties.ReplaceSubtaskKeepsInv | src/repository/AllTasksRepository.java:83-92 | Replacing a subtask and recomputing its epic keeps the invariant. |
| UpdateProperties.ReplaceEpicKeepsInv | src/repository/AllTasksRepository.java:94-99 | Renaming an epic keeps the invariant. |
| UpdateProperties.UpdateAsWrittenDropsLargeEpicIds | src/repository/AllTasksRepository.java:84 | As written, updating a subtask whose epic id is outside -128..127 changes nothing. The corrected update replaces it. |
| UpdateProperties.UpdateAsWrittenAgreesOtherwise | src/repository/AllTasksRepository.java:83-92 | In every other case the written update and the corrected one agree. |
| UpdateProperties.UpdateAsWrittenExample | src/model/Subtask.java:36-38 | Renaming subtask 201 of epic 200 is lost as written and kept by the corrected update. |
| DeleteProperties.DeletePlainBranchKeepsInv | src/repository/AllTasksRepository.java:225-229 | Removing a plain task keeps the invariant. |
| DeleteProperties.DeleteSubtaskBranchKeepsInv | src/repository/AllTasksRepository.java:231-243 | Removing a subtask and recomputing its epic keeps the invariant. |
| DeleteProperties.DeleteEpicBranchKeepsInv | src/repository/AllTasksRepository.java:245-249 | Removing an epic with all its subtasks keeps the invariant. |
| DeleteProperties.DeleteTaskByIdKeepsInv | src/repository/AllTasksRepository.java:222-251 | `deleteTaskById` keeps the invariant. |
| DeleteProperties.DeleteTaskByIdRemoves | src/repository/AllTasksRepository.java:222-251 | Afterwards nothing is stored under the id in any map. |
| DeleteProperties.DeleteUnknownId | src/repository/AllTasksRepository.java:222-251 | An id stored nowhere changes nothing and reports nothing. |
| DeleteProperties.DeleteReportsStored | src/repository/AllTasksRepository.java:222-251 | Every reported item was stored before the call. |
| DeleteProperties.DeletePlainTaskById | src/repository/AllTasksRepository.java:222-229 | Deleting a plain task reports it and removes it from its map and the set (by `remove`); epics and subtasks are unchanged. |
| DeleteProperties.DeleteEpicById | src/repository/AllTasksRepository.java:245-249 | Deleting an epic reports the epic, then its subtasks in list order, and removes all of them from the maps and the set. The subtask map loses exactly the listed ids; plain tasks and the other epics stay. The set becomes `removeAll` of the listed subtasks. |
| DeleteProperties.DeleteSubtaskById | src/repository/AllTasksRepository.java:231-243 | Deleting a subtask reports it and removes it from its map, the set and its epic's list. The set becomes `remove` of the subtask, which drops whichever element compares equal to it. Its epic loses the first occurrence of the id from its list and is recomputed from the old epic, keeping its name and description; plain tasks, the other subtasks and every other epic are unchanged. |
| DeleteProperties.DeleteSubtaskAsWrittenFails | src/repository/AllTasksRepository.java:232-233 | As written, deleting any subtask throws and leaves its epic listing a missing subtask. The corrected delete succeeds, keeps the invariant and reports the subtask. |
| DeleteProperties.DeleteAsWrittenAgreesOtherwise | src/repository/AllTasksRepository.java:222-251 | For an id that is not a subtask, the written delete and the corrected one agree. |
| DeleteProperties.DeleteAllTaskTypeKeepsInv | src/repository/AllTasksRepository.java:253-259 | Keeps the invariant and leaves only subtasks in the set. |
| DeleteProperties.DeleteAllSubtaskTypeKeepsInv | src/repository/AllTasksRepository.java:261-268 | Keeps the invariant. Every epic ends empty and NEW with its times kept, and only plain tasks stay in the set. |
| DeleteProperties.DeleteAllEpicTypeKeepsInv | src/repository/AllTasksRepository.java:270-281 | Keeps the invariant and leaves the plain tasks unchanged. |
| PrioritizedProperties.ExactMembers | src/repository/AllTasksRepository.java:36-49 | While the state is exact, an item is in the prioritized set if and only if it is the stored task or subtask of its id. |
| PrioritizedProperties.EmptyStoreExact | src/repository/AllTasksRepository.java:32-50 | The constructor's state is exact. |
| PrioritizedProperties.AdmittedIsNew | src/repository/AllTasksRepository.java:293-308 | A task or subtask with a positive duration that passed the overlap check compares equal to no member of another id, so `add` cannot ignore it. |
| PrioritizedProperties.AddTaskKeepsExact | src/repository/AllTasksRepository.java:52-61 | Adding an item with a positive duration under a fresh id keeps the state exact, and a task or subtask enters the set. |
| PrioritizedProperties.UpdateTaskKeepsExact | src/repository/AllTasksRepository.java:63-99 | A successful update with a positive duration keeps the state exact. |
| PrioritizedProperties.DeleteTaskByIdKeepsExact | src/repository/AllTasksRepository.java:222-251 | The corrected `deleteTaskById` keeps the state exact: every item not deleted stays in the set. |
| PrioritizedProperties.DeleteAllTaskTypeKeepsExact | src/repository/AllTasksRepository.java:253-259 | `deleteAllTaskType` keeps the state exact: every subtask stays in the set. |
| PrioritizedProperties.DeleteAllSubtaskTypeKeepsExact | src/repository/AllTasksRepository.java:261-268 | `deleteAllSubtaskType` keeps the state exact: every plain task stays in the set. |
| PrioritizedProperties.DeleteAllEpicTypeKeepsExact | src/repository/AllTasksRepository.java:270-281 | `deleteAllEpicType` keeps the state exact: every plain task stays in the set. |
| PrioritizedProperties.ZeroDurationHidesLaterItem | src/repository/AllTasksRepository.java:326-328 | A dated task of zero duration at 600, then a 60-minute task at 600, are both stored, but the second is not in the set. A task from 630 to 640, which overlaps the second, is then accepted. |
| Repository.Values | src/repository/AllTasksRepository.java:189-191 | `new ArrayList<>(map.values())` lists each stored item exactly once. |
| Repository.AllTasksRepository.constructor | src/repository/AllTasksRepository.java:32-50 | A new repository is empty and valid. |
| Repository.AllTasksRepository.CalculateNewEpicStatus | src/repository/AllTasksRepository.java:117-145 | The loop with its early return computes the status rollup of the listed subtasks. |
| Repository.AllTasksRepository.CalculateAndSetNewEpicTimeProperties | src/repository/AllTasksRepository.java:147-172 | The loop computes the epic's start, duration and end, skipping ids with no subtask. |
| Repository.AllTasksRepository.ChangeEpicStatusAndTimeProperties | src/repository/AllTasksRepository.java:386-394 | Replaces the stored epic with its recomputed value; nothing else changes. |
| Repository.AllTasksRepository.AddTask | src/repository/AllTasksRepository.java:52-61 | Performs `Store.AddTask` and keeps the object valid. A refused item changes no field. |
| Repository.AllTasksRepository.AddPlainTask | src/repository/AllTasksRepository.java:334-340 | The private `addTask` does what `Store.AddTask` does for a plain task. |
| Repository.AllTasksRepository.AddSubtask | src/repository/AllTasksRepository.java:342-357 | `addSubtask` does what `Store.AddTask` does for a subtask. |
| Repository.AllTasksRepository.AddEpic | src/repository/AllTasksRepository.java:359-364 | `addEpic` does what `Store.AddTask` does for an epic. |
| Repository.AllTasksRepository.UpdateTask | src/repository/AllTasksRepository.java:63-99 | Performs `Store.UpdateTask` and keeps the object valid. |
| Repository.AllTasksRepository.GetTaskById | src/repository/AllTasksRepository.java:174-187 | Returns what `Store.GetTaskById` finds. |
| Repository.AllTasksRepository.GetAllTaskType | src/repository/AllTasksRepository.java:189-191 | Lists every plain task exactly once. |
| Repository.AllTasksRepository.GetAllSubtaskType | src/repository/AllTasksRepository.java:193-195 | Lists every subtask exactly once. |
| Repository.AllTasksRepository.GetAllEpicType | src/repository/AllTasksRepository.java:197-199 | Lists every epic exactly once. |
| Repository.AllTasksRepository.GetAllTasks | src/repository/AllTasksRepository.java:201-208 | Lists the plain tasks, then the subtasks, then the epics, each exactly once. |
| Repository.AllTasksRepository.GetAllEpicSubtasks | src/repository/AllTasksRepository.java:210-216 | For a stored epic, the subtasks it lists, in list order and none `null`. |
| Repository.AllTasksRepository.GetPrioritizedTasks | src/repository/AllTasksRepository.java:218-220 | The set in ascending order, with no epic in it. |
| Repository.AllTasksRepository.DeleteSubtaskConnectedWithEpic | src/repository/AllTasksRepository.java:377-384 | Removes and reports the epic's subtasks in list order. They leave the set; nothing else changes. |
| Repository.AllTasksRepository.DeleteTaskById | src/repository/AllTasksRepository.java:222-251 | Performs the corrected `Store.DeleteTaskById`, reports what it reports, and keeps the object valid. |
| Repository.AllTasksRepository.DeleteTaskEntry | src/repository/AllTasksRepository.java:225-229 | The plain-task branch. |
| Repository.AllTasksRepository.DeleteSubtaskEntry | src/repository/AllTasksRepository.java:231-243 | The subtask branch, which takes the epic id from the subtask it removed. |
| Repository.AllTasksRepository.DeleteEpicEntry | src/repository/AllTasksRepository.java:245-249 | The epic branch, with its cascade. |
| Repository.AllTasksRepository.DeleteAllTaskType | src/repository/AllTasksRepository.java:253-259 | Reports every plain task, empties their map, removes them from the set, and keeps the object valid. |
| Repository.AllTasksRepository.DeleteAllSubTaskInsideAllEpic | src/repository/AllTasksRepository.java:370-375 | Clears every epic's list and sets it to NEW; nothing else changes. |
| Repository.AllTasksRepository.DeleteAllSubtaskType | src/repository/AllTasksRepository.java:261-268 | Reports every subtask, empties their map, clears every epic, and keeps the object valid. |
| Repository.AllTasksRepository.DeleteAllEpicType | src/repository/AllTasksRepository.java:270-281 | Reports every epic, then every subtask, and keeps only the plain tasks. |
| Repository.AllTasksRepository.DeleteAllTasks | src/repository/AllTasksRepository.java:283-291 | Reports everything, as `getAllTasks` lists it, and leaves the repository empty. |
| TaskManager.RemoveTasks | src/service/InMemoryTaskManager.java:142-146 | Evicting a list of items never lengthens the history. |
| TaskManager.RemoveTasksMembers | src/service/InMemoryTaskManager.java:142-146 | Exactly the entries whose id no evicted item shares remain. |
| TaskManager.DeletedLeaveHistory | src/service/InMemoryTaskManager.java:83-116 | After a delete, no history entry has a deleted id, and every other entry is still there. |
| TaskManager.FreshIdNeverDuplicate | src/service/InMemoryTaskManager.java:21-31 | With every stored id below the new one, the add never fails on a duplicate id. |
| TaskManager.AddKeepsIdsAtMost | src/service/InMemoryTaskManager.java:21-31 | After an add under the counter's id, every stored id is still at most the counter. |
| TaskManager.UpdateKeepsIdsAtMost | src/service/InMemoryTaskManager.java:33-36 | An update never stores an id above the counter. |
| TaskManager.DeleteKeepsIdsAtMost | src/service/InMemoryTaskManager.java:83-88 | A delete never stores an id above the counter. |
| TaskManager.NothingListedAfterDeleteAll | src/service/InMemoryTaskManager.java:111-116 | After `deleteAllTasks`, listing the repository gives nothing. |
| TaskManager.InMemoryTaskManager.constructor | src/service/InMemoryTaskManager.java:16-19 | A new manager has an empty repository, an empty history and the counter at 0. |
| TaskManager.InMemoryTaskManager.GenerateTaskId | src/service/InMemoryTaskManager.java:137-140 | Increments the counter and returns its new value. |
| TaskManager.InMemoryTaskManager.CreateTask | src/service/InMemoryTaskManager.java:21-31 | The item takes the next id. A success returns it; an overlap or missing epic is passed on and changes nothing. The duplicate-id `null` is proved never to occur. |
| TaskManager.InMemoryTaskManager.UpdateTask | src/service/InMemoryTaskManager.java:33-36 | Performs the repository update and leaves the history alone. |
| TaskManager.InMemoryTaskManager.GetTaskById | src/service/InMemoryTaskManager.java:43-51 | Returns what the repository finds. A found item is appended to the history; a miss leaves it alone. |
| TaskManager.InMemoryTaskManager.GetAllTasks | src/service/InMemoryTaskManager.java:38-41 | Lists every stored item exactly once. |
| TaskManager.InMemoryTaskManager.GetHistory | src/service/InMemoryTaskManager.java:118-121 | Returns the history, which holds at most ten entries. |
| TaskManager.InMemoryTaskManager.RemoveTasksFromHistoryManager | src/service/InMemoryTaskManager.java:142-146 | Evicts the id of each listed item from the history, in turn. |
| TaskManager.InMemoryTaskManager.DeleteTaskById | src/service/InMemoryTaskManager.java:83-88 | Performs the corrected repository delete and evicts every reported item from the history. |
| TaskManager.InMemoryTaskManager.DeleteAllTaskType | src/service/InMemoryTaskManager.java:90-95 | Deletes every plain task and evicts them from the history. |
| TaskManager.InMemoryTaskManager.DeleteAllSubtaskType | src/service/InMemoryTaskManager.java:97-102 | Deletes every subtask and evicts them from the history. |
| TaskManager.InMemoryTaskManager.DeleteAllEpicType | src/service/InMemoryTaskManager.java:104-109 | Deletes every epic and subtask, keeps the plain tasks, and evicts what was deleted from the history. The report lists the epics, then the subtasks, each once, and the repository makes the `deleteAllEpicType` transition for those subtasks. |
| TaskManager.InMemoryTaskManager.DeleteAllTasks | src/service/InMemoryTaskManager.java:111-116 | Empties the repository, reports everything, and evicts it from the history. |

## Left out

- HTTP server, key-value server and client, Gson adapters, `FileBackedTasksManager`, `HttpTaskManager`, `Managers`, `Main` and the `TaskManager` interface are not part of this model.
- The print methods of `InMemoryTaskManager` (lines 124-135) only write to standard output.
- `removeTasksFromPrioritizedSetByType` (AllTasksRepository.java:414-416) is never called. The `is*Existed` helpers (lines 101-115) are inlined as map-membership tests.
- Aliasing is not modelled, because items are values. This covers the live list `getSubtaskIdList` returns, the live list `getHistory` returns, and callers keeping references to stored objects. The setters of `Task`, `Epic` and `Subtask` become field updates of the value.
- TaskManager.InMemoryTaskManager.CreateTask: sets the id on its returned value rather than on the caller's object, so the caller's item keeps its old id after a failed add.
- `HashMap` iteration order is not modelled. `getAll*` and the bulk deletes are specified to list each stored item exactly once, in some order.
- Repository.AllTasksRepository.AddTask: requires an epic to arrive with an empty subtask list, which every `Epic` constructor gives. An epic whose list was filled by hand before the add is not modelled.
- DeleteProperties.DeleteReportsStored: assumes the id does not name both a subtask and an epic. Ids from the counter never do.
- Java `int` overflow in the duration sums, in `plusMinutes` and in the id counter is not modelled; integers are unbounded there.
- `generatorTaskId` is a static field shared by every manager. It is modelled as a field of the one manager.
- `LocalDateTime` is a whole number of minutes, and its text form is that number in decimal. ISO calendar parsing and printing are not modelled.
- `MAX_TASK_HISTORY_SIZE`, `DEFAULT_TASK_START_TIME`, `DEFAULT_TASK_DURATION_IN_MINUTES`, the two `null` time defaults and `DEFAULT_NULL_TASK_START_TIME_STRING` are not in `Constants.java`. The model fixes them at 10, no start, 0 minutes, no time and the text `null`.
- `InMemoryHistoryManager.remove`, which `removeTasksFromHistoryManager` calls, is not in the class's source. It is modelled as removing every entry with the given id.
- `getAllEpicSubtasks(int)` (InMemoryTaskManager.java:73-76) calls a repository method that does not exist, so it is not modelled.
- The pass-through `getAllTaskType`, `getAllSubtaskType`, `getAllEpicType`, `getAllEpicSubtasks(Epic)` and `getPrioritizedTasks` of `InMemoryTaskManager` are covered by the repository methods they call.
- The `hashCode` of an enum constant is an identity hash that no source fixes, so `Model.HashCode` takes the status hash as a parameter.
- `toUpperCase` folds ASCII letters only.
- Text.ParseInt: accepts ASCII digits only. `Integer.parseInt` also accepts the other Unicode decimal digits, such as Arabic-Indic ones.
- `String.hashCode` sums UTF-16 code units, while `Model.StringHash` sums Unicode scalar values. A character outside the Basic Multilingual Plane therefore hashes differently.
- The prioritized set holds every stored task and subtask only while every dated one has a positive duration and the ids of tasks and subtasks are apart (`PrioritizedProperties.Exact`). The invariant the model keeps for every state, `Store.PrioritizedWellFormed`, says only that the set is ordered and holds stored items. A dated item of zero or negative duration can hide a later item with the same start from the set and from the overlap check (`PrioritizedProperties.ZeroDurationHidesLaterItem`).
- Exceptions are outcomes: `TimeOverlapException`, `DuplicateTaskIdException`, `MissingEpicException`, `NullPointerException` and the CSV loader's errors become `Failure` values. The messages are not kept.

## Findings

| source | as written | input that shows it | evidently intended | confidence | as-written member | corrected member |
|---|---|---|---|---|---|---|
| src/repository/AllTasksRepository.java:232-233 | The subtask is removed from `idToSubTaskMap`, then read back from it to find its epic, which gives `null` and throws. Line 242 removes it a second time. | Any stored subtask id passed to `deleteTaskById`. | Take the epic id from the removed subtask, detach it, recompute the epic and report the subtask. | not executed | DeleteProperties.DeleteSubtaskAsWrittenFails | Store.DeleteTaskById |
| src/repository/AllTasksRepository.java:84 | `getEpicId()` returns a boxed `Integer`, and `==` compares the two boxes by reference. | A subtask of epic 200 updated with the same epic id: the boxes differ, so the update is ignored. | Compare the epic ids by value. | not executed | UpdateProperties.UpdateAsWrittenDropsLargeEpicIds | Store.UpdateTask |
