/**
 * The state of `AllTasksRepository` as a value: the three id-keyed maps and
 * the prioritized set. Every public operation of the repository is a
 * function from one state to the next; the class in `repository.dfy` is
 * proved to perform exactly these transitions.
 */
module Store {
  import opened Wrappers
  import opened Model
  import opened Rollup
  import PrioritySet
  import Overlap

  /** The exceptions the repository raises. */
  datatype RepoError =
    | TimeOverlap                               // TimeOverlapException
    | MissingEpic(epicId: int)                  // MissingEpicException
    | DuplicateTaskId(map_: TaskType, id: int)  // DuplicateTaskIdException, with the message of the map it hit
    | NullPointer                               // NullPointerException

  /** `idToTaskMap`, `idToEpicMap`, `idToSubTaskMap` and `prioritizedTasksByStartTime`. */
  datatype Store = Store(tasks: map<int, Task>, epics: map<int, Task>, subtasks: map<int, Task>,
                         prioritized: seq<Task>)

  /** The state the constructor builds. */
  const EmptyStore: Store := Store(map[], map[], map[], [])

  // The invariant the repository keeps.

  /** Every item is stored under its own id. */
  predicate IdKeyed(m: map<int, Task>)
  {
    forall id :: id in m ==> m[id].id == id
  }

  /** Each map holds items of its own class, each under its own id. */
  predicate KeysConsistent(s: Store)
  {
    && IdKeyed(s.tasks) && IdKeyed(s.epics) && IdKeyed(s.subtasks)
    && (forall id :: id in s.tasks ==> s.tasks[id].IsPlain())
    && (forall id :: id in s.epics ==> s.epics[id].IsEpic())
    && (forall id :: id in s.subtasks ==> s.subtasks[id].IsSubtask())
  }

  /** No id occurs twice in the list. */
  predicate Distinct(xs: seq<int>)
  {
    forall i, j :: 0 <= i < j < |xs| ==> xs[i] != xs[j]
  }

  /** The subtask ids an epic lists, or none for an item that is not an epic. */
  function SubtaskIdsOf(t: Task): seq<int>
  {
    if t.IsEpic() then t.kind.subtaskIdList else []
  }

  /** The epic a subtask names, or the unassigned id for an item that is not a subtask. */
  function EpicIdOf(t: Task): int
  {
    if t.IsSubtask() then t.kind.epicId else UnassignedTaskId
  }

  /** Every subtask's epic exists and lists it. */
  predicate SubtasksLinked(s: Store)
  {
    forall id :: id in s.subtasks ==>
      EpicIdOf(s.subtasks[id]) in s.epics && id in SubtaskIdsOf(s.epics[EpicIdOf(s.subtasks[id])])
  }

  /** Every id an epic lists is a subtask naming that epic, and no id is listed twice. */
  predicate ListsResolve(s: Store)
  {
    forall e :: e in s.epics ==>
      && Distinct(SubtaskIdsOf(s.epics[e]))
      && forall i :: 0 <= i < |SubtaskIdsOf(s.epics[e])| ==>
           SubtaskIdsOf(s.epics[e])[i] in s.subtasks && EpicIdOf(s.subtasks[SubtaskIdsOf(s.epics[e])[i]]) == e
  }

  /** What the operations need to run without a `NullPointerException`. */
  predicate WellFormed(s: Store)
  {
    KeysConsistent(s) && SubtasksLinked(s) && ListsResolve(s)
  }

  /** Every epic with subtasks carries the status and time window of their rollup. */
  predicate RollupsFresh(s: Store)
    requires KeysConsistent(s)
  {
    forall e :: e in s.epics && s.epics[e].kind.subtaskIdList != [] ==> RollupFresh(s.epics[e], s.subtasks)
  }

  /** `t` is the task or subtask currently stored under its id. */
  predicate Stored(s: Store, t: Task)
  {
    || (t.IsPlain() && t.id in s.tasks && s.tasks[t.id] == t)
    || (t.IsSubtask() && t.id in s.subtasks && s.subtasks[t.id] == t)
  }

  /** The prioritized set is ordered by its comparator and holds only stored tasks and subtasks. */
  predicate PrioritizedWellFormed(s: Store)
  {
    PrioritySet.Sorted(s.prioritized) && forall i :: 0 <= i < |s.prioritized| ==> Stored(s, s.prioritized[i])
  }

  /** The repository invariant. */
  predicate Inv(s: Store)
  {
    WellFormed(s) && RollupsFresh(s) && PrioritizedWellFormed(s)
  }

  /**
   * An item as its constructors build it: an epic starts with no subtask ids.
   * Only such epics are passed to `addTask`.
   */
  predicate NewlyBuilt(t: Task)
  {
    t.IsEpic() ==> t.kind.subtaskIdList == []
  }

  /** `r` lists the values of `m` in some order, each once, as `new ArrayList<>(m.values())` does. */
  predicate IsListing(r: seq<Task>, m: map<int, Task>)
  {
    && (forall i :: 0 <= i < |r| ==> r[i].id in m && m[r[i].id] == r[i])
    && (forall i, j :: 0 <= i < j < |r| ==> r[i].id != r[j].id)
    && (forall id :: id in m ==> exists i :: 0 <= i < |r| && r[i].id == id)
  }

  // Reads.

  /** `getTaskById`: plain tasks are looked up first, then subtasks, then epics; `None` is `null`. */
  function GetTaskById(s: Store, id: int): (r: Option<Task>)
    ensures r.Some? <==> id in s.tasks || id in s.subtasks || id in s.epics
    ensures r.Some? ==> r.value == (if id in s.tasks then s.tasks[id] else if id in s.subtasks then s.subtasks[id] else s.epics[id])
  {
    if id in s.tasks then Some(s.tasks[id])
    else if id in s.subtasks then Some(s.subtasks[id])
    else if id in s.epics then Some(s.epics[id])
    else None
  }

  /** `getAllEpicSubtasks(epic)`: the subtask of each listed id in list order; `None` is the `null` of a missing one. */
  function GetAllEpicSubtasks(s: Store, epic: Task): (r: seq<Option<Task>>)
    requires epic.IsEpic()
    ensures |r| == |epic.kind.subtaskIdList|
    ensures forall i :: 0 <= i < |r| ==> r[i] == Get(s.subtasks, epic.kind.subtaskIdList[i])
  {
    seq(|epic.kind.subtaskIdList|, i requires 0 <= i < |epic.kind.subtaskIdList| => Get(s.subtasks, epic.kind.subtaskIdList[i]))
  }

  // Adding and updating.

  /** An epic with one more subtask id at the end of its list (`getSubtaskIdList().add(id)`). */
  function AppendSubtaskId(epic: Task, id: int): (r: Task)
    requires epic.IsEpic()
    ensures r.IsEpic() && r.kind.subtaskIdList == epic.kind.subtaskIdList + [id]
    ensures r.id == epic.id
  {
    epic.(kind := epic.kind.(subtaskIdList := epic.kind.subtaskIdList + [id]))
  }

  /**
   * `addTask`: the overlap check comes first; then a task or an epic is
   * refused when its id is taken in its own map, and a subtask when its epic
   * is missing or its id is taken. A new subtask is appended to its epic's
   * list and the epic is recomputed. A failed add changes nothing.
   */
  function AddTask(s: Store, t: Task): (r: Result<Store, RepoError>)
    requires WellFormed(s)
    ensures r.Failure? <==>
      || Overlap.CheckForTimeOverlap(s.prioritized, t)
      || (t.IsPlain() && t.id in s.tasks)
      || (t.IsSubtask() && (t.kind.epicId !in s.epics || t.id in s.subtasks))
      || (t.IsEpic() && t.id in s.epics)
    ensures r.Success? ==> GetTaskById(r.value, t.id).Some?
  {
    if Overlap.CheckForTimeOverlap(s.prioritized, t) then Failure(TimeOverlap)
    else match t.kind
      case Plain =>
        if t.id in s.tasks then Failure(DuplicateTaskId(TaskTag, t.id))
        else Success(s.(tasks := s.tasks[t.id := t], prioritized := PrioritySet.Insert(s.prioritized, t)))
      case Subtask(epicId) =>
        if epicId !in s.epics then Failure(MissingEpic(epicId))
        else if t.id in s.subtasks then Failure(DuplicateTaskId(SubtaskTag, t.id))
        else
          var subtasks := s.subtasks[t.id := t];
          var epic := AppendSubtaskId(s.epics[epicId], t.id);
          Success(Store(s.tasks, s.epics[epicId := Recalculate(epic, subtasks)], subtasks,
                        PrioritySet.Insert(s.prioritized, t)))
      case Epic(_, _) =>
        if t.id in s.epics then Failure(DuplicateTaskId(EpicTag, t.id))
        else Success(s.(epics := s.epics[t.id := t]))
  }

  /** `updateEpic`: the stored epic takes only the name and the description of `t`. */
  function CopyNameAndDescription(epic: Task, t: Task): (r: Task)
    ensures r.(name := epic.name, description := epic.description) == epic
    ensures r.name == t.name && r.description == t.description
  {
    epic.(name := t.name, description := t.description)
  }

  /**
   * `updateTask` with the epic check of `updateSubtask` decided by `sameEpic`:
   * the overlap check comes first (against items of other ids); an unknown id
   * changes nothing; a task is replaced; a subtask is replaced and its epic
   * recomputed when `sameEpic` holds; an epic takes only name and description.
   */
  function UpdateWith(s: Store, t: Task, sameEpic: bool): (r: Result<Store, RepoError>)
    requires WellFormed(s)
    requires sameEpic ==> t.IsSubtask() && t.id in s.subtasks && EpicIdOf(s.subtasks[t.id]) == t.kind.epicId
  {
    if Overlap.CheckForTimeOverlap(s.prioritized, t) then Failure(TimeOverlap)
    else match t.kind
      case Plain =>
        if t.id in s.tasks then
          var previous := s.tasks[t.id];
          Success(s.(tasks := s.tasks[t.id := t],
                     prioritized := PrioritySet.Insert(PrioritySet.Remove(s.prioritized, previous), t)))
        else Success(s)
      case Subtask(epicId) =>
        if t.id in s.subtasks && sameEpic then
          var previous := s.subtasks[t.id];
          var subtasks := s.subtasks[t.id := t];
          assert EpicIdOf(previous) in s.epics;
          Success(Store(s.tasks, s.epics[epicId := Recalculate(s.epics[epicId], subtasks)], subtasks,
                        PrioritySet.Insert(PrioritySet.Remove(s.prioritized, previous), t)))
        else Success(s)
      case Epic(_, _) =>
        if t.id in s.epics then Success(s.(epics := s.epics[t.id := CopyNameAndDescription(s.epics[t.id], t)]))
        else Success(s)
  }

  /** `updateTask`, comparing the stored and the new epic id by value. */
  function UpdateTask(s: Store, t: Task): (r: Result<Store, RepoError>)
    requires WellFormed(s)
    ensures r.Failure? <==> Overlap.CheckForTimeOverlap(s.prioritized, t)
    ensures r.Success? && t.IsSubtask() && t.id in s.subtasks && EpicIdOf(s.subtasks[t.id]) == t.kind.epicId ==>
      r.value.subtasks == s.subtasks[t.id := t]
  {
    UpdateWith(s, t, t.IsSubtask() && t.id in s.subtasks && EpicIdOf(s.subtasks[t.id]) == t.kind.epicId)
  }

  /**
   * `==` on two boxed `Integer`s: the same object, which `Integer.valueOf`
   * guarantees for equal values only inside its cache of -128..127.
   */
  predicate SameBoxedInteger(a: int, b: int)
  {
    a == b && -128 <= a <= 127
  }

  /** `updateTask` as written, where `getEpicId()` returns a boxed `Integer` compared with `==`. */
  function UpdateTaskAsWritten(s: Store, t: Task): Result<Store, RepoError>
    requires WellFormed(s)
  {
    UpdateWith(s, t, t.IsSubtask() && t.id in s.subtasks && SameBoxedInteger(EpicIdOf(s.subtasks[t.id]), t.kind.epicId))
  }

  // Deleting by id.

  /** `List.remove(Object)`: drops the first occurrence of `x`, if any. */
  function RemoveFirst(xs: seq<int>, x: int): (r: seq<int>)
    ensures forall y :: y in r ==> y in xs
    ensures forall y :: y in xs && y != x ==> y in r
    ensures x in xs ==> |r| == |xs| - 1
    ensures x !in xs ==> r == xs
  {
    if xs == [] then []
    else if xs[0] == x then xs[1..]
    else [xs[0]] + RemoveFirst(xs[1..], x)
  }

  /** The first branch of `deleteTaskById`: a plain task leaves its map and the prioritized set. */
  function DeletePlainBranch(s: Store, id: int): (r: (Store, seq<Task>))
    requires WellFormed(s)
    ensures WellFormed(r.0)
  {
    if id in s.tasks then
      var deleted := s.tasks[id];
      (s.(tasks := s.tasks - {id}, prioritized := PrioritySet.Remove(s.prioritized, deleted)), [deleted])
    else (s, [])
  }

  /** The epic `epic` with `id` taken out of its list and its rollup recomputed over `subtasks`. */
  function DetachSubtask(epic: Task, id: int, subtasks: map<int, Task>): (r: Task)
    requires epic.IsEpic()
    ensures r.IsEpic() && r.id == epic.id && r.kind.subtaskIdList == RemoveFirst(epic.kind.subtaskIdList, id)
  {
    Recalculate(epic.(kind := epic.kind.(subtaskIdList := RemoveFirst(epic.kind.subtaskIdList, id))), subtasks)
  }

  /**
   * The second branch of `deleteTaskById`, as intended: the subtask leaves its
   * map and the prioritized set, its epic drops its id and is recomputed, and
   * the removed subtask is reported.
   */
  function DeleteSubtaskBranch(s: Store, id: int): (r: (Store, seq<Task>))
    requires WellFormed(s)
    ensures WellFormed(r.0)
  {
    if id in s.subtasks then
      var deleted := s.subtasks[id];
      var subtasks := s.subtasks - {id};
      var epicId := deleted.kind.epicId;
      var r := (Store(s.tasks, s.epics[epicId := DetachSubtask(s.epics[epicId], id, subtasks)], subtasks,
                      PrioritySet.Remove(s.prioritized, deleted)), [deleted]);
      DeleteSubtaskBranchWellFormed(s, id, r.0);
      r
    else (s, [])
  }

  /** The subtasks an epic lists, in list order. */
  function ListedSubtasks(ids: seq<int>, subtasks: map<int, Task>): (r: seq<Task>)
    requires forall i :: 0 <= i < |ids| ==> ids[i] in subtasks
    ensures |r| == |ids|
    ensures forall i :: 0 <= i < |ids| ==> r[i] == subtasks[ids[i]]
  {
    seq(|ids|, i requires 0 <= i < |ids| => subtasks[ids[i]])
  }

  /**
   * The third branch of `deleteTaskById` (with `deleteSubtaskConnectedWithEpic`):
   * the epic and every subtask it lists leave the maps, the subtasks leave the
   * prioritized set, and the epic is reported first, then its subtasks in list
   * order.
   */
  function DeleteEpicBranch(s: Store, id: int): (r: (Store, seq<Task>))
    requires WellFormed(s)
    ensures WellFormed(r.0)
  {
    if id in s.epics then
      var epic := s.epics[id];
      var ids := epic.kind.subtaskIdList;
      var removed := ListedSubtasks(ids, s.subtasks);
      var r := (Store(s.tasks, s.epics - {id}, s.subtasks - (set x | x in ids),
                      PrioritySet.RemoveAll(s.prioritized, removed)), [epic] + removed);
      DeleteEpicBranchWellFormed(s, id, r.0);
      r
    else (s, [])
  }

  /**
   * `deleteTaskById`, with the subtask branch taking the epic id from the
   * subtask it has just removed. The three branches run one after the other,
   * each on the state the previous one left.
   */
  function DeleteTaskById(s: Store, id: int): (r: (Store, seq<Task>))
    requires WellFormed(s)
    ensures WellFormed(r.0)
  {
    var (s1, d1) := DeletePlainBranch(s, id);
    var (s2, d2) := DeleteSubtaskBranch(s1, id);
    var (s3, d3) := DeleteEpicBranch(s2, id);
    (s3, d1 + d2 + d3)
  }

  /**
   * `deleteTaskById` as written: once the subtask is removed from its map,
   * reading it back gives `null` and the method throws, leaving the epic's
   * list, the epic and the prioritized set as they were.
   */
  function DeleteTaskByIdAsWritten(s: Store, id: int): (Store, Result<seq<Task>, RepoError>)
    requires WellFormed(s)
  {
    var (s1, d1) := DeletePlainBranch(s, id);
    if id in s1.subtasks then (s1.(subtasks := s1.subtasks - {id}), Failure(NullPointer))
    else
      var (s3, d3) := DeleteEpicBranch(s1, id);
      (s3, Success(d1 + d3))
  }

  // Bulk deletes; `deleted` is the snapshot of the map the method takes first.

  /** `deleteAllTaskType`: the task map is emptied and its items leave the prioritized set. */
  function DeleteAllTaskType(s: Store, deleted: seq<Task>): Store
    requires IsListing(deleted, s.tasks)
  {
    s.(tasks := map[], prioritized := PrioritySet.RemoveAll(s.prioritized, deleted))
  }

  /** `deleteAllSubTaskInsideAllEpic` for one epic: an empty list and status NEW; its times stay. */
  function ClearSubtaskList(epic: Task): (r: Task)
    requires epic.IsEpic()
    ensures r.IsEpic() && r.kind.subtaskIdList == [] && r.status == New
    ensures r.(status := epic.status, kind := epic.kind) == epic && EndTime(r) == EndTime(epic)
  {
    epic.(status := New, kind := epic.kind.(subtaskIdList := []))
  }

  /** Every epic with its list cleared. */
  function ClearAllSubtaskLists(epics: map<int, Task>): (r: map<int, Task>)
    requires forall id :: id in epics ==> epics[id].IsEpic()
    ensures r.Keys == epics.Keys
    ensures forall id :: id in r ==> r[id] == ClearSubtaskList(epics[id])
  {
    map id | id in epics :: ClearSubtaskList(epics[id])
  }

  /**
   * `deleteAllSubtaskType`: the subtask map is emptied, every epic gets an
   * empty list and status NEW but keeps its time fields, and the subtasks
   * leave the prioritized set.
   */
  function DeleteAllSubtaskType(s: Store, deleted: seq<Task>): Store
    requires KeysConsistent(s) && IsListing(deleted, s.subtasks)
  {
    Store(s.tasks, ClearAllSubtaskLists(s.epics), map[], PrioritySet.RemoveAll(s.prioritized, deleted))
  }

  /** `deleteAllEpicType`: the epic and subtask maps are emptied and the subtasks leave the prioritized set. */
  function DeleteAllEpicType(s: Store, deletedSubtasks: seq<Task>): Store
    requires IsListing(deletedSubtasks, s.subtasks)
  {
    Store(s.tasks, map[], map[], PrioritySet.RemoveAll(s.prioritized, deletedSubtasks))
  }

  /** `deleteAllTasks`: everything is emptied, the prioritized set included. */
  function DeleteAllTasks(s: Store): (r: Store)
    ensures r == EmptyStore
  {
    EmptyStore
  }

  // Well-formedness of the deleting branches.

  lemma DeleteSubtaskBranchWellFormed(s: Store, id: int, r: Store)
    requires WellFormed(s) && id in s.subtasks
    requires var deleted := s.subtasks[id]; var subtasks := s.subtasks - {id};
      r == Store(s.tasks, s.epics[deleted.kind.epicId := DetachSubtask(s.epics[deleted.kind.epicId], id, subtasks)],
                 subtasks, PrioritySet.Remove(s.prioritized, deleted))
    ensures WellFormed(r)
  {
    var epicId := s.subtasks[id].kind.epicId;
    var list := s.epics[epicId].kind.subtaskIdList;
    RemoveFirstOfDistinct(list, id);
    forall e, i | e in r.epics && 0 <= i < |SubtaskIdsOf(r.epics[e])|
      ensures SubtaskIdsOf(r.epics[e])[i] in r.subtasks && EpicIdOf(r.subtasks[SubtaskIdsOf(r.epics[e])[i]]) == e
    {
      var x := SubtaskIdsOf(r.epics[e])[i];
      if e == epicId {
        assert x in RemoveFirst(list, id);
        assert x in list;
        var k :| 0 <= k < |list| && list[k] == x;
      } else {
        assert x == SubtaskIdsOf(s.epics[e])[i];
      }
    }
    forall x | x in r.subtasks
      ensures EpicIdOf(r.subtasks[x]) in r.epics && x in SubtaskIdsOf(r.epics[EpicIdOf(r.subtasks[x])])
    {
      var ex := EpicIdOf(s.subtasks[x]);
      assert x in SubtaskIdsOf(s.epics[ex]);
    }
  }

  lemma DeleteEpicBranchWellFormed(s: Store, id: int, r: Store)
    requires WellFormed(s) && id in s.epics
    requires var ids := s.epics[id].kind.subtaskIdList;
      r == Store(s.tasks, s.epics - {id}, s.subtasks - (set x | x in ids),
                 PrioritySet.RemoveAll(s.prioritized, ListedSubtasks(ids, s.subtasks)))
    ensures WellFormed(r)
  {
    var ids := s.epics[id].kind.subtaskIdList;
    forall e, i | e in r.epics && 0 <= i < |SubtaskIdsOf(r.epics[e])|
      ensures SubtaskIdsOf(r.epics[e])[i] !in ids
    {
      var x := SubtaskIdsOf(r.epics[e])[i];
      assert EpicIdOf(s.subtasks[x]) == e;
    }
    forall x | x in r.subtasks
      ensures EpicIdOf(r.subtasks[x]) in r.epics && x in SubtaskIdsOf(r.epics[EpicIdOf(r.subtasks[x])])
    {
      assert x in SubtaskIdsOf(s.epics[EpicIdOf(s.subtasks[x])]);
    }
  }

  /** Dropping the first occurrence from a list without repeats removes the element entirely and keeps the rest distinct. */
  lemma {:induction false} RemoveFirstOfDistinct(xs: seq<int>, x: int)
    requires Distinct(xs)
    ensures Distinct(RemoveFirst(xs, x))
    ensures x !in RemoveFirst(xs, x)
  {
    if xs != [] {
      RemoveFirstOfDistinct(xs[1..], x);
      if xs[0] == x {
        assert forall y :: y in xs[1..] ==> y != x;
      } else {
        var r := RemoveFirst(xs[1..], x);
        assert forall y :: y in r ==> y in xs[1..];
        assert xs[0] !in xs[1..];
      }
    }
  }
}
