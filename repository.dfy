/**
 * `AllTasksRepository` as a class: the three id-keyed maps and the prioritized
 * set are fields that its methods update in place. Each method is proved to
 * perform the transition of the same name in the `Store` module, and every
 * public method keeps the repository invariant `Store.Inv`.
 */
module Repository {
  import opened Wrappers
  import opened Model
  import opened Rollup
  import PrioritySet
  import Overlap
  import opened Store
  import Transitions = Store
  import StoreProperties
  import UpdateProperties
  import DeleteProperties

  /** A map with an entry has a key. */
  lemma SomeKey(m: map<int, Task>)
    requires m != map[]
    ensures exists k :: k in m
  {
    if forall k :: k !in m {
      assert false;
    }
  }

  /** A non-empty set has an element. */
  lemma SomeElement(s: set<int>)
    requires s != {}
    ensures exists x :: x in s
  {
    if forall x :: x !in s {
      assert false;
    }
  }

  /** `r` lists, once each, the entries of `m` not left in `rest`. */
  predicate PartialListing(r: seq<Task>, rest: map<int, Task>, m: map<int, Task>)
  {
    && rest.Keys <= m.Keys
    && (forall k :: k in rest ==> rest[k] == m[k])
    && (forall i :: 0 <= i < |r| ==> r[i].id in m && m[r[i].id] == r[i] && r[i].id !in rest)
    && (forall i, j :: 0 <= i < j < |r| ==> r[i].id != r[j].id)
    && (forall id :: id in m ==> id in rest || exists i :: 0 <= i < |r| && r[i].id == id)
  }

  /** Moving one entry from `rest` to the end of `r` keeps the partial listing. */
  lemma PartialListingStep(r: seq<Task>, rest: map<int, Task>, m: map<int, Task>, k: int)
    requires IdKeyed(m) && PartialListing(r, rest, m) && k in rest
    ensures PartialListing(r + [rest[k]], rest - {k}, m)
  {
    var r' := r + [rest[k]];
    var rest' := rest - {k};
    forall id | id in m && id !in rest' ensures exists i :: 0 <= i < |r'| && r'[i].id == id {
      if id == k {
        assert r'[|r|].id == id;
      } else {
        var i :| 0 <= i < |r| && r[i].id == id;
        assert r'[i] == r[i];
      }
    }
  }

  /** `new ArrayList<>(m.values())`: every value of `m` once, in no particular order. */
  method Values(m: map<int, Task>) returns (r: seq<Task>)
    requires IdKeyed(m)
    ensures IsListing(r, m)
  {
    r := [];
    var rest := m;
    while rest != map[]
      invariant PartialListing(r, rest, m)
      decreases |rest.Keys|
    {
      SomeKey(rest);
      var k :| k in rest;
      assert k in rest.Keys;
      PartialListingStep(r, rest, m, k);
      r := r + [rest[k]];
      rest := rest - {k};
    }
  }

  /** `r` is the plain tasks, then the subtasks, then the epics of `s`, each group in no particular order. */
  predicate IsListingOfAll(r: seq<Task>, s: Store)
  {
    exists k1, k2 :: 0 <= k1 <= k2 <= |r| && IsListing(r[..k1], s.tasks) && IsListing(r[k1..k2], s.subtasks)
                                         && IsListing(r[k2..], s.epics)
  }

  class AllTasksRepository {
    var idToTaskMap: map<int, Task>
    var idToEpicMap: map<int, Task>
    var idToSubTaskMap: map<int, Task>
    var prioritizedTasksByStartTime: seq<Task>

    /** The fields as one value. */
    function State(): Store
      reads this
    {
      Store(idToTaskMap, idToEpicMap, idToSubTaskMap, prioritizedTasksByStartTime)
    }

    predicate Valid()
      reads this
    {
      Inv(State())
    }

    /** Empty maps and an empty prioritized set. */
    constructor()
      ensures State() == EmptyStore && Valid()
    {
      idToTaskMap := map[];
      idToEpicMap := map[];
      idToSubTaskMap := map[];
      prioritizedTasksByStartTime := [];
      StoreProperties.EmptyStoreInv();
    }

    /**
     * `calculateNewEpicStatus`: one pass over the listed subtasks noting
     * whether a NEW and a DONE one occur, stopping as soon as both have.
     * Every listed id must name a stored subtask (a missing one would be a
     * `NullPointerException`).
     */
    method CalculateNewEpicStatus(epic: Task) returns (status: Status)
      requires epic.IsEpic()
      requires forall i :: 0 <= i < |epic.kind.subtaskIdList| ==> epic.kind.subtaskIdList[i] in idToSubTaskMap
      ensures status == EpicStatusOf(StatusesOf(epic.kind.subtaskIdList, idToSubTaskMap))
    {
      var ids := epic.kind.subtaskIdList;
      StatusesOfResolved(ids, idToSubTaskMap);
      ghost var all := StatusesOf(ids, idToSubTaskMap);
      if ids == [] {
        return New;
      }
      var isNewTask := false;
      var isDoneTask := false;
      var i := 0;
      while i < |ids|
        invariant 0 <= i <= |ids|
        invariant isNewTask <==> New in all[..i]
        invariant isDoneTask <==> Done in all[..i]
        invariant !(isNewTask && isDoneTask)
      {
        var st := idToSubTaskMap[ids[i]].status;
        assert all[..i + 1] == all[..i] + [st];
        if st == New {
          isNewTask := true;
        }
        if st == Done {
          isDoneTask := true;
        }
        if isNewTask && isDoneTask {
          assert New in all && Done in all;
          return InProgress;
        }
        i := i + 1;
      }
      assert all[..i] == all;
      if isNewTask {
        return New;
      }
      if isDoneTask {
        return Done;
      }
      return InProgress;
    }

    /**
     * `calculateAndSetNewEpicTimeProperties`: the defaults for an epic with no
     * subtask ids; otherwise one pass over the ids, skipping those with no
     * stored subtask, keeping the earliest start, the latest end and the sum
     * of the durations. Returns the epic with those times.
     */
    method CalculateAndSetNewEpicTimeProperties(epic: Task) returns (r: Task)
      requires epic.IsEpic()
      ensures r == EpicTimes(epic, idToSubTaskMap)
    {
      var ids := epic.kind.subtaskIdList;
      if ids == [] {
        return SetTimeProperties(epic, DefaultNullTaskStartTime, DefaultTaskDurationInMinutes, DefaultNullTaskEndTime);
      }
      var minStartTime := DefaultNullTaskStartTime;
      var maxEndTime := DefaultNullTaskEndTime;
      var totalDurationInMinutes := 0;
      var i := 0;
      while i < |ids|
        invariant 0 <= i <= |ids|
        invariant minStartTime == StartOf(ids[..i], idToSubTaskMap)
        invariant maxEndTime == EndOf(ids[..i], idToSubTaskMap)
        invariant totalDurationInMinutes == DurationOf(ids[..i], idToSubTaskMap)
      {
        assert ids[..i + 1][..i] == ids[..i];
        if ids[i] in idToSubTaskMap {
          var currentSubtask := idToSubTaskMap[ids[i]];
          minStartTime := MinStartTime(minStartTime, currentSubtask.startTime);
          maxEndTime := MaxEndTime(maxEndTime, EndTime(currentSubtask));
          totalDurationInMinutes := totalDurationInMinutes + currentSubtask.durationInMinutes;
        }
        i := i + 1;
      }
      assert ids[..i] == ids;
      r := SetTimeProperties(epic, minStartTime, totalDurationInMinutes, maxEndTime);
    }

    /** `changeEpicStatusAndTimeProperties`: the stored epic gets its recomputed status and times. */
    method ChangeEpicStatusAndTimeProperties(epicId: int)
      requires epicId in idToEpicMap && idToEpicMap[epicId].IsEpic()
      requires forall i :: 0 <= i < |idToEpicMap[epicId].kind.subtaskIdList| ==>
                 idToEpicMap[epicId].kind.subtaskIdList[i] in idToSubTaskMap
      modifies this
      ensures idToEpicMap == old(idToEpicMap)[epicId := Recalculate(old(idToEpicMap)[epicId], idToSubTaskMap)]
      ensures idToTaskMap == old(idToTaskMap) && idToSubTaskMap == old(idToSubTaskMap)
      ensures prioritizedTasksByStartTime == old(prioritizedTasksByStartTime)
    {
      var newEpicStatus := CalculateNewEpicStatus(idToEpicMap[epicId]);
      idToEpicMap := idToEpicMap[epicId := idToEpicMap[epicId].(status := newEpicStatus)];
      var epic := CalculateAndSetNewEpicTimeProperties(idToEpicMap[epicId]);
      idToEpicMap := idToEpicMap[epicId := epic];
    }

    /**
     * `addTask`: the overlap check, then the add of the item's own class;
     * performs `Store.AddTask`, and a refused item leaves every field as it was.
     */
    method AddTask(t: Task) returns (outcome: Outcome<RepoError>)
      requires Valid() && NewlyBuilt(t)
      modifies this
      ensures Valid()
      ensures var r := Transitions.AddTask(old(State()), t);
        && (r.Success? ==> outcome == Pass && State() == r.value)
        && (r.Failure? ==> outcome == Fail(r.error) && State() == old(State()))
    {
      ghost var s := State();
      if Overlap.CheckForTimeOverlap(prioritizedTasksByStartTime, t) {
        return Fail(TimeOverlap);
      }
      match t.kind {
        case Plain => outcome := AddPlainTask(t);
        case Subtask(_) => outcome := AddSubtask(t);
        case Epic(_, _) => outcome := AddEpic(t);
      }
      if outcome.Pass? {
        StoreProperties.AddTaskKeepsInv(s, t);
      }
    }

    /** The private `addTask(id, task)`: refused when the id is taken, otherwise stored and prioritized. */
    method AddPlainTask(t: Task) returns (outcome: Outcome<RepoError>)
      requires Valid() && t.IsPlain() && !Overlap.CheckForTimeOverlap(prioritizedTasksByStartTime, t)
      modifies this
      ensures var r := Transitions.AddTask(old(State()), t);
        && (r.Success? ==> outcome == Pass && State() == r.value)
        && (r.Failure? ==> outcome == Fail(r.error) && State() == old(State()))
    {
      if t.id in idToTaskMap {
        return Fail(DuplicateTaskId(TaskTag, t.id));
      }
      idToTaskMap := idToTaskMap[t.id := t];
      prioritizedTasksByStartTime := PrioritySet.Insert(prioritizedTasksByStartTime, t);
      outcome := Pass;
    }

    /**
     * `addSubtask`: refused when its epic is missing or its id is taken;
     * otherwise stored, prioritized, appended to its epic's list, and the
     * epic recomputed.
     */
    method AddSubtask(t: Task) returns (outcome: Outcome<RepoError>)
      requires Valid() && t.IsSubtask() && !Overlap.CheckForTimeOverlap(prioritizedTasksByStartTime, t)
      modifies this
      ensures var r := Transitions.AddTask(old(State()), t);
        && (r.Success? ==> outcome == Pass && State() == r.value)
        && (r.Failure? ==> outcome == Fail(r.error) && State() == old(State()))
    {
      var epicId := t.kind.epicId;
      if epicId !in idToEpicMap {
        return Fail(MissingEpic(epicId));
      }
      if t.id in idToSubTaskMap {
        return Fail(DuplicateTaskId(SubtaskTag, t.id));
      }
      var list := idToEpicMap[epicId].kind.subtaskIdList;
      assert SubtaskIdsOf(idToEpicMap[epicId]) == list;
      idToSubTaskMap := idToSubTaskMap[t.id := t];
      prioritizedTasksByStartTime := PrioritySet.Insert(prioritizedTasksByStartTime, t);
      var linked := AppendSubtaskId(idToEpicMap[epicId], t.id);
      idToEpicMap := idToEpicMap[epicId := linked];
      assert forall i :: 0 <= i < |list + [t.id]| ==> (list + [t.id])[i] in idToSubTaskMap;
      ChangeEpicStatusAndTimeProperties(epicId);
      outcome := Pass;
    }

    /** `addEpic`: refused when the id is taken, otherwise stored. */
    method AddEpic(t: Task) returns (outcome: Outcome<RepoError>)
      requires Valid() && t.IsEpic() && !Overlap.CheckForTimeOverlap(prioritizedTasksByStartTime, t)
      modifies this
      ensures var r := Transitions.AddTask(old(State()), t);
        && (r.Success? ==> outcome == Pass && State() == r.value)
        && (r.Failure? ==> outcome == Fail(r.error) && State() == old(State()))
    {
      if t.id in idToEpicMap {
        return Fail(DuplicateTaskId(EpicTag, t.id));
      }
      idToEpicMap := idToEpicMap[t.id := t];
      outcome := Pass;
    }

    /** `updateTask`: performs `Store.UpdateTask`, the epic ids of a subtask compared by value. */
    method UpdateTask(t: Task) returns (outcome: Outcome<RepoError>)
      requires Valid()
      modifies this
      ensures Valid()
      ensures var r := Transitions.UpdateTask(old(State()), t);
        && (r.Success? ==> outcome == Pass && State() == r.value)
        && (r.Failure? ==> outcome == Fail(r.error) && State() == old(State()))
    {
      ghost var s := State();
      if Overlap.CheckForTimeOverlap(prioritizedTasksByStartTime, t) {
        return Fail(TimeOverlap);
      }
      match t.kind {
        case Plain =>
          if t.id in idToTaskMap {
            var oldTask := idToTaskMap[t.id];
            prioritizedTasksByStartTime := PrioritySet.Remove(prioritizedTasksByStartTime, oldTask);
            idToTaskMap := idToTaskMap[t.id := t];
            prioritizedTasksByStartTime := PrioritySet.Insert(prioritizedTasksByStartTime, t);
          }
        case Subtask(epicId) =>
          if t.id in idToSubTaskMap && EpicIdOf(idToSubTaskMap[t.id]) == epicId {
            var oldSubtask := idToSubTaskMap[t.id];
            prioritizedTasksByStartTime := PrioritySet.Remove(prioritizedTasksByStartTime, oldSubtask);
            idToSubTaskMap := idToSubTaskMap[t.id := t];
            prioritizedTasksByStartTime := PrioritySet.Insert(prioritizedTasksByStartTime, t);
            assert SubtaskIdsOf(s.epics[epicId]) == s.epics[epicId].kind.subtaskIdList;
            ChangeEpicStatusAndTimeProperties(epicId);
          }
        case Epic(_, _) =>
          if t.id in idToEpicMap {
            idToEpicMap := idToEpicMap[t.id := CopyNameAndDescription(idToEpicMap[t.id], t)];
          }
      }
      UpdateProperties.UpdateTaskKeepsInv(s, t);
      outcome := Pass;
    }

    /** `getTaskById`: plain tasks first, then subtasks, then epics; `None` is `null`. */
    method GetTaskById(id: int) returns (r: Option<Task>)
      ensures r == Transitions.GetTaskById(State(), id)
    {
      if id in idToTaskMap {
        return Some(idToTaskMap[id]);
      }
      if id in idToSubTaskMap {
        return Some(idToSubTaskMap[id]);
      }
      if id in idToEpicMap {
        return Some(idToEpicMap[id]);
      }
      return None;
    }

    /** `getAllTaskType`: every plain task once. */
    method GetAllTaskType() returns (r: seq<Task>)
      requires Valid()
      ensures IsListing(r, idToTaskMap)
    {
      r := Values(idToTaskMap);
    }

    /** `getAllSubtaskType`: every subtask once. */
    method GetAllSubtaskType() returns (r: seq<Task>)
      requires Valid()
      ensures IsListing(r, idToSubTaskMap)
    {
      r := Values(idToSubTaskMap);
    }

    /** `getAllEpicType`: every epic once. */
    method GetAllEpicType() returns (r: seq<Task>)
      requires Valid()
      ensures IsListing(r, idToEpicMap)
    {
      r := Values(idToEpicMap);
    }

    /** `getAllTasks`: the plain tasks, then the subtasks, then the epics. */
    method GetAllTasks() returns (r: seq<Task>)
      requires Valid()
      ensures IsListingOfAll(r, State())
    {
      var tasks := Values(idToTaskMap);
      var subtasks := Values(idToSubTaskMap);
      var epics := Values(idToEpicMap);
      r := tasks + subtasks + epics;
      assert r[..|tasks|] == tasks;
      assert r[|tasks|..|tasks| + |subtasks|] == subtasks;
      assert r[|tasks| + |subtasks|..] == epics;
    }

    /**
     * `getAllEpicSubtasks(epic)`: the stored subtask of each listed id, in
     * list order, `None` for an id with none. For an epic the repository
     * holds, every id resolves to a subtask of that epic.
     */
    method GetAllEpicSubtasks(epic: Task) returns (r: seq<Option<Task>>)
      requires epic.IsEpic()
      ensures r == Transitions.GetAllEpicSubtasks(State(), epic)
      ensures Valid() && epic.id in idToEpicMap && idToEpicMap[epic.id] == epic ==>
        forall i :: 0 <= i < |r| ==> r[i].Some? && r[i].value.IsSubtask() && r[i].value.kind.epicId == epic.id
    {
      var ids := epic.kind.subtaskIdList;
      r := [];
      var i := 0;
      while i < |ids|
        invariant 0 <= i <= |ids| && |r| == i
        invariant forall j :: 0 <= j < i ==> r[j] == Get(idToSubTaskMap, ids[j])
      {
        r := r + [Get(idToSubTaskMap, ids[i])];
        i := i + 1;
      }
      if Valid() && epic.id in idToEpicMap && idToEpicMap[epic.id] == epic {
        assert SubtaskIdsOf(idToEpicMap[epic.id]) == ids;
      }
    }

    /** `getPrioritizedTasks`: the prioritized set in comparator order, plain tasks and subtasks only. */
    method GetPrioritizedTasks() returns (r: seq<Task>)
      requires Valid()
      ensures r == prioritizedTasksByStartTime
      ensures PrioritySet.Sorted(r) && forall i :: 0 <= i < |r| ==> !r[i].IsEpic()
    {
      r := prioritizedTasksByStartTime;
    }

    /**
     * `deleteSubtaskConnectedWithEpic`: every listed subtask leaves its map, in
     * list order, and then the removed ones leave the prioritized set.
     */
    method DeleteSubtaskConnectedWithEpic(epic: Task) returns (deletedSubtasks: seq<Task>)
      requires epic.IsEpic() && Distinct(epic.kind.subtaskIdList)
      requires forall i :: 0 <= i < |epic.kind.subtaskIdList| ==> epic.kind.subtaskIdList[i] in idToSubTaskMap
      modifies this
      ensures deletedSubtasks == ListedSubtasks(epic.kind.subtaskIdList, old(idToSubTaskMap))
      ensures idToSubTaskMap == old(idToSubTaskMap) - (set x | x in epic.kind.subtaskIdList)
      ensures prioritizedTasksByStartTime == PrioritySet.RemoveAll(old(prioritizedTasksByStartTime), deletedSubtasks)
      ensures idToTaskMap == old(idToTaskMap) && idToEpicMap == old(idToEpicMap)
    {
      var ids := epic.kind.subtaskIdList;
      deletedSubtasks := [];
      ghost var removed: set<int> := {};
      var i := 0;
      while i < |ids|
        invariant 0 <= i <= |ids| && |deletedSubtasks| == i
        invariant forall j :: 0 <= j < i ==> deletedSubtasks[j] == old(idToSubTaskMap)[ids[j]]
        invariant idToSubTaskMap == old(idToSubTaskMap) - removed
        invariant forall j :: 0 <= j < i ==> ids[j] in removed
        invariant forall j :: i <= j < |ids| ==> ids[j] in idToSubTaskMap
        invariant forall x :: x in removed ==> exists j :: 0 <= j < i && ids[j] == x
        invariant idToTaskMap == old(idToTaskMap) && idToEpicMap == old(idToEpicMap)
        invariant prioritizedTasksByStartTime == old(prioritizedTasksByStartTime)
      {
        deletedSubtasks := deletedSubtasks + [idToSubTaskMap[ids[i]]];
        idToSubTaskMap := idToSubTaskMap - {ids[i]};
        removed := removed + {ids[i]};
        i := i + 1;
      }
      forall x ensures x in removed <==> x in ids {
        if x in ids {
          var j :| 0 <= j < |ids| && ids[j] == x;
        }
      }
      assert removed == set x | x in ids;
      prioritizedTasksByStartTime := PrioritySet.RemoveAll(prioritizedTasksByStartTime, deletedSubtasks);
    }

    /**
     * `deleteTaskById`, with the subtask branch taking the epic id from the
     * subtask it removes: the three branches run in turn on what the previous
     * one left, and the result lists what each removed.
     */
    method DeleteTaskById(id: int) returns (deletedTasks: seq<Task>)
      requires Valid()
      modifies this
      ensures Valid()
      ensures State() == Transitions.DeleteTaskById(old(State()), id).0
      ensures deletedTasks == Transitions.DeleteTaskById(old(State()), id).1
    {
      ghost var s := State();
      var d1 := DeleteTaskEntry(id);
      var d2 := DeleteSubtaskEntry(id);
      var d3 := DeleteEpicEntry(id);
      deletedTasks := d1 + d2 + d3;
      DeleteProperties.DeleteTaskByIdKeepsInv(s, id);
    }

    /** The first branch of `deleteTaskById`: performs `Store.DeletePlainBranch`. */
    method DeleteTaskEntry(id: int) returns (deletedTasks: seq<Task>)
      requires WellFormed(State())
      modifies this
      ensures WellFormed(State())
      ensures (State(), deletedTasks) == DeletePlainBranch(old(State()), id)
    {
      deletedTasks := [];
      if id in idToTaskMap {
        var deletedTask := idToTaskMap[id];
        idToTaskMap := idToTaskMap - {id};
        prioritizedTasksByStartTime := PrioritySet.Remove(prioritizedTasksByStartTime, deletedTask);
        deletedTasks := [deletedTask];
      }
    }

    /**
     * The second branch of `deleteTaskById`, reading the epic id from the
     * subtask it removes: performs `Store.DeleteSubtaskBranch`.
     */
    method DeleteSubtaskEntry(id: int) returns (deletedTasks: seq<Task>)
      requires WellFormed(State())
      modifies this
      ensures WellFormed(State())
      ensures (State(), deletedTasks) == DeleteSubtaskBranch(old(State()), id)
    {
      deletedTasks := [];
      if id in idToSubTaskMap {
        ghost var target := DeleteSubtaskBranch(State(), id).0;
        var deletedTask := idToSubTaskMap[id];
        idToSubTaskMap := idToSubTaskMap - {id};
        var epicId := deletedTask.kind.epicId;
        prioritizedTasksByStartTime := PrioritySet.Remove(prioritizedTasksByStartTime, deletedTask);
        var epic := idToEpicMap[epicId];
        epic := epic.(kind := epic.kind.(subtaskIdList := RemoveFirst(epic.kind.subtaskIdList, id)));
        assert epic.kind.subtaskIdList == SubtaskIdsOf(target.epics[epicId]);
        var newEpicStatus := CalculateNewEpicStatus(epic);
        epic := epic.(status := newEpicStatus);
        epic := CalculateAndSetNewEpicTimeProperties(epic);
        idToEpicMap := idToEpicMap[epicId := epic];
        deletedTasks := [deletedTask];
      }
    }

    /** The third branch of `deleteTaskById`: performs `Store.DeleteEpicBranch`. */
    method DeleteEpicEntry(id: int) returns (deletedTasks: seq<Task>)
      requires WellFormed(State())
      modifies this
      ensures WellFormed(State())
      ensures (State(), deletedTasks) == DeleteEpicBranch(old(State()), id)
    {
      deletedTasks := [];
      if id in idToEpicMap {
        var epic := idToEpicMap[id];
        assert SubtaskIdsOf(epic) == epic.kind.subtaskIdList;
        deletedTasks := [epic];
        var deletedSubtasks := DeleteSubtaskConnectedWithEpic(epic);
        deletedTasks := deletedTasks + deletedSubtasks;
        idToEpicMap := idToEpicMap - {id};
      }
    }

    /** `deleteAllTaskType`: reports every plain task and keeps only epics and subtasks. */
    method DeleteAllTaskType() returns (deletedTasks: seq<Task>)
      requires Valid()
      modifies this
      ensures Valid()
      ensures IsListing(deletedTasks, old(idToTaskMap))
      ensures State() == Transitions.DeleteAllTaskType(old(State()), deletedTasks)
    {
      ghost var s := State();
      deletedTasks := Values(idToTaskMap);
      idToTaskMap := map[];
      prioritizedTasksByStartTime := PrioritySet.RemoveAll(prioritizedTasksByStartTime, deletedTasks);
      DeleteProperties.DeleteAllTaskTypeKeepsInv(s, deletedTasks);
    }

    /** `deleteAllSubTaskInsideAllEpic`: every epic gets an empty list and status NEW. */
    method DeleteAllSubTaskInsideAllEpic()
      requires forall id :: id in idToEpicMap ==> idToEpicMap[id].IsEpic()
      modifies this
      ensures idToEpicMap == ClearAllSubtaskLists(old(idToEpicMap))
      ensures idToTaskMap == old(idToTaskMap) && idToSubTaskMap == old(idToSubTaskMap)
      ensures prioritizedTasksByStartTime == old(prioritizedTasksByStartTime)
    {
      var epics := idToEpicMap;
      var rest := epics.Keys;
      while rest != {}
        modifies {}
        invariant rest <= epics.Keys && epics.Keys == idToEpicMap.Keys
        invariant forall id :: id in epics ==>
          epics[id] == if id in rest then idToEpicMap[id] else ClearSubtaskList(idToEpicMap[id])
        decreases |rest|
      {
        SomeElement(rest);
        var id :| id in rest;
        epics := epics[id := ClearSubtaskList(idToEpicMap[id])];
        rest := rest - {id};
      }
      forall id | id in epics ensures epics[id] == ClearAllSubtaskLists(idToEpicMap)[id] {
        assert id !in rest;
      }
      assert epics.Keys == ClearAllSubtaskLists(idToEpicMap).Keys;
      idToEpicMap := epics;
    }

    /** `deleteAllSubtaskType`: reports every subtask; epics stay with empty lists, status NEW and their times. */
    method DeleteAllSubtaskType() returns (deletedTasks: seq<Task>)
      requires Valid()
      modifies this
      ensures Valid()
      ensures IsListing(deletedTasks, old(idToSubTaskMap))
      ensures State() == Transitions.DeleteAllSubtaskType(old(State()), deletedTasks)
    {
      ghost var s := State();
      deletedTasks := Values(idToSubTaskMap);
      idToSubTaskMap := map[];
      DeleteAllSubTaskInsideAllEpic();
      prioritizedTasksByStartTime := PrioritySet.RemoveAll(prioritizedTasksByStartTime, deletedTasks);
      DeleteProperties.DeleteAllSubtaskTypeKeepsInv(s, deletedTasks);
    }

    /** `deleteAllEpicType`: reports every epic, then every subtask, and keeps only plain tasks. */
    method DeleteAllEpicType() returns (allDeletedTasks: seq<Task>)
      requires Valid()
      modifies this
      ensures Valid()
      ensures exists k ::
        (&& 0 <= k <= |allDeletedTasks| && IsListing(allDeletedTasks[..k], old(idToEpicMap))
         && IsListing(allDeletedTasks[k..], old(idToSubTaskMap))
         && State() == Transitions.DeleteAllEpicType(old(State()), allDeletedTasks[k..]))
    {
      ghost var s := State();
      var deletedEpics := Values(idToEpicMap);
      var deletedSubtasks := Values(idToSubTaskMap);
      idToSubTaskMap := map[];
      idToEpicMap := map[];
      prioritizedTasksByStartTime := PrioritySet.RemoveAll(prioritizedTasksByStartTime, deletedSubtasks);
      allDeletedTasks := deletedEpics + deletedSubtasks;
      assert allDeletedTasks[..|deletedEpics|] == deletedEpics && allDeletedTasks[|deletedEpics|..] == deletedSubtasks;
      DeleteProperties.DeleteAllEpicTypeKeepsInv(s, deletedSubtasks);
    }

    /** `deleteAllTasks`: reports everything, as `getAllTasks` lists it, and empties the repository. */
    method DeleteAllTasks() returns (deletedTasks: seq<Task>)
      requires Valid()
      modifies this
      ensures Valid() && State() == Transitions.DeleteAllTasks(old(State()))
      ensures IsListingOfAll(deletedTasks, old(State()))
    {
      deletedTasks := GetAllTasks();
      idToTaskMap := map[];
      idToSubTaskMap := map[];
      idToEpicMap := map[];
      prioritizedTasksByStartTime := [];
      StoreProperties.EmptyStoreInv();
    }
  }
}
