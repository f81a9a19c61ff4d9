/**
 * `InMemoryTaskManager`: the facade over the repository and the history. It
 * numbers new items from a counter, records every successful lookup in the
 * history, and takes every deleted item out of the history.
 */
module TaskManager {
  import opened Wrappers
  import opened Model
  import opened Store
  import Transitions = Store
  import StoreProperties
  import UpdateProperties
  import Repository
  import HistoryManager

  /** No stored id is above `n`: every id came from a counter that has reached `n`. */
  predicate IdsAtMost(s: Store, n: int)
  {
    && (forall id :: id in s.tasks ==> id <= n)
    && (forall id :: id in s.subtasks ==> id <= n)
    && (forall id :: id in s.epics ==> id <= n)
  }

  /** The history after `historyManager.remove` of the id of each item of `ts`, in order. */
  function RemoveTasks(h: seq<Task>, ts: seq<Task>): (r: seq<Task>)
    ensures |r| <= |h|
  {
    if ts == [] then h else HistoryManager.RemoveId(RemoveTasks(h, ts[..|ts| - 1]), ts[|ts| - 1].id)
  }

  /**
   * After the removals, no entry has the id of a removed item, and every
   * entry of any other id stays.
   */
  lemma {:induction false} RemoveTasksMembers(h: seq<Task>, ts: seq<Task>)
    ensures forall t :: t in RemoveTasks(h, ts) <==> t in h && forall i :: 0 <= i < |ts| ==> ts[i].id != t.id
  {
    if ts != [] {
      var init := ts[..|ts| - 1];
      RemoveTasksMembers(h, init);
      HistoryManager.RemoveIdMembers(RemoveTasks(h, init), ts[|ts| - 1].id);
      forall t: Task ensures (forall i :: 0 <= i < |ts| ==> ts[i].id != t.id) <==>
                       (forall i :: 0 <= i < |init| ==> init[i].id != t.id) && ts[|ts| - 1].id != t.id
      {
        if forall i :: 0 <= i < |init| ==> init[i].id != t.id {
          forall i | 0 <= i < |ts| - 1 ensures ts[i].id != t.id {
            assert ts[i] == init[i];
          }
        }
      }
    }
  }

  /** A successful add keeps every id at most the counter when the new id is. */
  lemma AddKeepsIdsAtMost(s: Store, t: Task, n: int)
    requires WellFormed(s) && IdsAtMost(s, n) && t.id <= n && AddTask(s, t).Success?
    ensures IdsAtMost(AddTask(s, t).value, n)
  {
    StoreProperties.AddTaskEffect(s, t);
  }

  /** An item whose id is above every stored id is never refused as a duplicate. */
  lemma FreshIdNeverDuplicate(s: Store, t: Task)
    requires WellFormed(s) && IdsAtMost(s, t.id - 1)
    ensures AddTask(s, t).Failure? ==> !AddTask(s, t).error.DuplicateTaskId?
  {
    StoreProperties.AddTaskErrorOrder(s, t);
  }

  /** An update stores no new id. */
  lemma UpdateKeepsIdsAtMost(s: Store, t: Task, n: int)
    requires WellFormed(s) && IdsAtMost(s, n) && UpdateTask(s, t).Success?
    ensures IdsAtMost(UpdateTask(s, t).value, n)
  {
    UpdateProperties.UpdateTaskEffect(s, t);
  }

  /** Deleting by id only removes ids from the maps. */
  lemma DeleteKeepsIdsAtMost(s: Store, id: int, n: int)
    requires WellFormed(s) && IdsAtMost(s, n)
    ensures IdsAtMost(DeleteTaskById(s, id).0, n)
  {
    var s1 := DeletePlainBranch(s, id).0;
    assert s1.tasks.Keys <= s.tasks.Keys && s1.subtasks == s.subtasks && s1.epics == s.epics;
    var s2 := DeleteSubtaskBranch(s1, id).0;
    assert s2.tasks == s1.tasks && s2.subtasks.Keys <= s1.subtasks.Keys && s2.epics.Keys == s1.epics.Keys;
    var s3 := DeleteEpicBranch(s2, id).0;
    assert s3.tasks == s2.tasks && s3.subtasks.Keys <= s2.subtasks.Keys && s3.epics.Keys <= s2.epics.Keys;
  }

  class InMemoryTaskManager {
    var allTasksRepository: Repository.AllTasksRepository
    var historyManager: HistoryManager.InMemoryHistoryManager
    /** The static `generatorTaskId`: the last id handed out. */
    var generatorTaskId: int

    predicate Valid()
      reads this, allTasksRepository, historyManager
    {
      && allTasksRepository.Valid() && historyManager.Valid()
      && IdsAtMost(allTasksRepository.State(), generatorTaskId)
    }

    /** An empty repository, an empty history, and the counter reset to 0. */
    constructor()
      ensures Valid() && fresh(allTasksRepository) && fresh(historyManager)
      ensures allTasksRepository.State() == EmptyStore && historyManager.taskHistory == [] && generatorTaskId == 0
    {
      allTasksRepository := new Repository.AllTasksRepository();
      historyManager := new HistoryManager.InMemoryHistoryManager();
      generatorTaskId := 0;
    }

    /** `generateTaskId`: the counter goes up by one and its new value is the id. */
    method GenerateTaskId() returns (id: int)
      modifies this
      ensures generatorTaskId == old(generatorTaskId) + 1 && id == generatorTaskId
      ensures allTasksRepository == old(allTasksRepository) && historyManager == old(historyManager)
    {
      generatorTaskId := generatorTaskId + 1;
      id := generatorTaskId;
    }

    /**
     * `createTask`: the item takes the next id, whether or not the add then
     * succeeds. A refused duplicate gives `Success(None)` (the `null` return);
     * an overlap or a missing epic is passed on. Since every stored id came
     * from the counter, the duplicate case never arises.
     */
    method CreateTask(task: Task) returns (r: Result<Option<Task>, RepoError>)
      requires Valid() && NewlyBuilt(task)
      modifies this, allTasksRepository
      ensures Valid()
      ensures generatorTaskId == old(generatorTaskId) + 1
      ensures allTasksRepository == old(allTasksRepository) && historyManager == old(historyManager)
      ensures historyManager.taskHistory == old(historyManager.taskHistory)
      ensures var t := task.(id := generatorTaskId);
        var added := AddTask(old(allTasksRepository.State()), t);
        && (added.Success? ==> r == Success(Some(t)) && allTasksRepository.State() == added.value)
        && (added.Failure? && added.error.DuplicateTaskId? ==>
              r == Success(None) && allTasksRepository.State() == old(allTasksRepository.State()))
        && (added.Failure? && !added.error.DuplicateTaskId? ==>
              r == Failure(added.error) && allTasksRepository.State() == old(allTasksRepository.State()))
      ensures r != Success(None)
    {
      var id := GenerateTaskId();
      var t := task.(id := id);
      FreshIdNeverDuplicate(allTasksRepository.State(), t);
      ghost var s := allTasksRepository.State();
      var outcome := allTasksRepository.AddTask(t);
      match outcome {
        case Pass =>
          AddKeepsIdsAtMost(s, t, generatorTaskId);
          r := Success(Some(t));
        case Fail(e) =>
          if e.DuplicateTaskId? {
            r := Success(None);
          } else {
            r := Failure(e);
          }
      }
    }

    /** `updateTask`: only the repository's update; the history is untouched. */
    method UpdateTask(task: Task) returns (outcome: Outcome<RepoError>)
      requires Valid()
      modifies allTasksRepository
      ensures Valid()
      ensures historyManager.taskHistory == old(historyManager.taskHistory)
      ensures var r := Transitions.UpdateTask(old(allTasksRepository.State()), task);
        && (r.Success? ==> outcome == Pass && allTasksRepository.State() == r.value)
        && (r.Failure? ==> outcome == Fail(r.error) && allTasksRepository.State() == old(allTasksRepository.State()))
    {
      ghost var s := allTasksRepository.State();
      outcome := allTasksRepository.UpdateTask(task);
      if outcome.Pass? {
        UpdateKeepsIdsAtMost(s, task, generatorTaskId);
      }
    }

    /** `getTaskById`: a found item is appended to the history; an unknown id leaves it as it was. */
    method GetTaskById(id: int) returns (r: Option<Task>)
      requires Valid()
      modifies historyManager
      ensures Valid()
      ensures r == Transitions.GetTaskById(allTasksRepository.State(), id)
      ensures r.None? ==> historyManager.taskHistory == old(historyManager.taskHistory)
      ensures r.Some? ==> historyManager.taskHistory == HistoryManager.AppendBounded(old(historyManager.taskHistory), r.value)
    {
      r := allTasksRepository.GetTaskById(id);
      if r.None? {
        return;
      }
      historyManager.Add(r.value);
    }

    /** `getAllTasks`: the plain tasks, then the subtasks, then the epics. */
    method GetAllTasks() returns (r: seq<Task>)
      requires Valid()
      ensures Repository.IsListingOfAll(r, allTasksRepository.State())
    {
      r := allTasksRepository.GetAllTasks();
    }

    /** `getHistory`: the looked-up items, oldest first. */
    method GetHistory() returns (r: seq<Task>)
      requires Valid()
      ensures r == historyManager.taskHistory && |r| <= HistoryManager.MaxTaskHistorySize
    {
      r := historyManager.GetHistory();
    }

    /** `removeTasksFromHistoryManager`: the id of each item, in order, leaves the history. */
    method RemoveTasksFromHistoryManager(tasksList: seq<Task>)
      requires historyManager.Valid()
      modifies historyManager
      ensures historyManager.Valid()
      ensures historyManager.taskHistory == RemoveTasks(old(historyManager.taskHistory), tasksList)
    {
      var i := 0;
      while i < |tasksList|
        invariant 0 <= i <= |tasksList|
        invariant historyManager.Valid()
        invariant historyManager.taskHistory == RemoveTasks(old(historyManager.taskHistory), tasksList[..i])
      {
        historyManager.Remove(tasksList[i].id);
        assert tasksList[..i + 1][..i] == tasksList[..i];
        i := i + 1;
      }
      assert tasksList[..i] == tasksList;
    }

    /** `deleteTaskById`: the repository's delete, then every removed item leaves the history. */
    method DeleteTaskById(id: int) returns (deletedTasks: seq<Task>)
      requires Valid()
      modifies allTasksRepository, historyManager
      ensures Valid()
      ensures allTasksRepository.State() == Transitions.DeleteTaskById(old(allTasksRepository.State()), id).0
      ensures deletedTasks == Transitions.DeleteTaskById(old(allTasksRepository.State()), id).1
      ensures historyManager.taskHistory == RemoveTasks(old(historyManager.taskHistory), deletedTasks)
    {
      DeleteKeepsIdsAtMost(allTasksRepository.State(), id, generatorTaskId);
      deletedTasks := allTasksRepository.DeleteTaskById(id);
      RemoveTasksFromHistoryManager(deletedTasks);
    }

    /** `deleteAllTaskType`: every plain task leaves the repository and the history. */
    method DeleteAllTaskType() returns (deletedTasks: seq<Task>)
      requires Valid()
      modifies allTasksRepository, historyManager
      ensures Valid()
      ensures IsListing(deletedTasks, old(allTasksRepository.State()).tasks)
      ensures allTasksRepository.State() == Transitions.DeleteAllTaskType(old(allTasksRepository.State()), deletedTasks)
      ensures historyManager.taskHistory == RemoveTasks(old(historyManager.taskHistory), deletedTasks)
    {
      deletedTasks := allTasksRepository.DeleteAllTaskType();
      RemoveTasksFromHistoryManager(deletedTasks);
    }

    /** `deleteAllSubtaskType`: every subtask leaves the repository and the history. */
    method DeleteAllSubtaskType() returns (deletedTasks: seq<Task>)
      requires Valid()
      modifies allTasksRepository, historyManager
      ensures Valid()
      ensures IsListing(deletedTasks, old(allTasksRepository.State()).subtasks)
      ensures allTasksRepository.State() == Transitions.DeleteAllSubtaskType(old(allTasksRepository.State()), deletedTasks)
      ensures historyManager.taskHistory == RemoveTasks(old(historyManager.taskHistory), deletedTasks)
    {
      deletedTasks := allTasksRepository.DeleteAllSubtaskType();
      RemoveTasksFromHistoryManager(deletedTasks);
    }

    /** `deleteAllEpicType`: every epic and every subtask leave the repository and the history. */
    method DeleteAllEpicType() returns (deletedTasks: seq<Task>)
      requires Valid()
      modifies allTasksRepository, historyManager
      ensures Valid()
      ensures allTasksRepository.State().tasks == old(allTasksRepository.State()).tasks
      ensures allTasksRepository.State().epics == map[] && allTasksRepository.State().subtasks == map[]
      ensures exists k ::
        (&& 0 <= k <= |deletedTasks| && IsListing(deletedTasks[..k], old(allTasksRepository.State()).epics)
         && IsListing(deletedTasks[k..], old(allTasksRepository.State()).subtasks)
         && allTasksRepository.State() == Transitions.DeleteAllEpicType(old(allTasksRepository.State()), deletedTasks[k..]))
      ensures historyManager.taskHistory == RemoveTasks(old(historyManager.taskHistory), deletedTasks)
    {
      deletedTasks := allTasksRepository.DeleteAllEpicType();
      RemoveTasksFromHistoryManager(deletedTasks);
    }

    /** `deleteAllTasks`: the repository is emptied and everything it held leaves the history. */
    method DeleteAllTasks() returns (deletedTasks: seq<Task>)
      requires Valid()
      modifies allTasksRepository, historyManager
      ensures Valid()
      ensures allTasksRepository.State() == EmptyStore
      ensures Repository.IsListingOfAll(deletedTasks, old(allTasksRepository.State()))
      ensures historyManager.taskHistory == RemoveTasks(old(historyManager.taskHistory), deletedTasks)
    {
      deletedTasks := allTasksRepository.DeleteAllTasks();
      RemoveTasksFromHistoryManager(deletedTasks);
    }
  }

  /** Once everything is deleted, `getAllTasks` lists nothing. */
  lemma NothingListedAfterDeleteAll(r: seq<Task>)
    requires Repository.IsListingOfAll(r, EmptyStore)
    ensures r == []
  {
    var k1, k2 :| 0 <= k1 <= k2 <= |r| && IsListing(r[..k1], EmptyStore.tasks) && IsListing(r[k1..k2], EmptyStore.subtasks)
                  && IsListing(r[k2..], EmptyStore.epics);
    ListingOfNothing(r[..k1], EmptyStore.tasks);
    ListingOfNothing(r[k1..k2], EmptyStore.subtasks);
    ListingOfNothing(r[k2..], EmptyStore.epics);
    assert r == r[..k1] + r[k1..k2] + r[k2..];
  }

  /** A listing of an empty map is empty. */
  lemma ListingOfNothing(r: seq<Task>, m: map<int, Task>)
    requires IsListing(r, m) && m == map[]
    ensures r == []
  {
    if r != [] {
      FirstIsListed(r, m);
      assert false;
    }
  }

  lemma FirstIsListed(r: seq<Task>, m: map<int, Task>)
    requires IsListing(r, m) && r != []
    ensures r[0].id in m
  {
  }

  /**
   * After a delete, no history entry has the id of a deleted item, and every
   * other entry is still there.
   */
  lemma DeletedLeaveHistory(h: seq<Task>, deleted: seq<Task>)
    ensures forall k, i :: 0 <= k < |RemoveTasks(h, deleted)| && 0 <= i < |deleted| ==>
      RemoveTasks(h, deleted)[k].id != deleted[i].id
    ensures forall t :: t in h && (forall i :: 0 <= i < |deleted| ==> deleted[i].id != t.id) ==> t in RemoveTasks(h, deleted)
  {
    RemoveTasksMembers(h, deleted);
    forall k, i | 0 <= k < |RemoveTasks(h, deleted)| && 0 <= i < |deleted|
      ensures RemoveTasks(h, deleted)[k].id != deleted[i].id
    {
      assert RemoveTasks(h, deleted)[k] in RemoveTasks(h, deleted);
    }
  }
}
