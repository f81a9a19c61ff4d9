/**
 * The prioritized set as the list of every stored task and subtask. The
 * `TreeSet` treats two dated items with the same start as one element, so
 * the set holds every stored task and subtask only while no two of them
 * share a start: true when every dated item spans at least a minute (the
 * overlap check then refuses the second one), false otherwise.
 */
module PrioritizedProperties {
  import opened Wrappers
  import opened Model
  import PrioritySet
  import Overlap
  import opened Store
  import StoreProperties
  import UpdateProperties
  import DeleteProperties

  /** A dated item spans at least one minute. */
  predicate Spans(t: Task)
  {
    t.startTime.Some? ==> t.durationInMinutes > 0
  }

  /** Every stored task and subtask is in the prioritized set. */
  predicate Complete(s: Store)
  {
    && (forall id :: id in s.tasks ==> s.tasks[id] in s.prioritized)
    && (forall id :: id in s.subtasks ==> s.subtasks[id] in s.prioritized)
  }

  /** Every stored task and subtask spans time, and no id names both a task and a subtask. */
  predicate Apart(s: Store)
  {
    && (forall id :: id in s.tasks ==> Spans(s.tasks[id]) && id !in s.subtasks)
    && (forall id :: id in s.subtasks ==> Spans(s.subtasks[id]))
  }

  /** The repository invariant, with the prioritized set holding every stored task and subtask. */
  predicate Exact(s: Store)
  {
    Inv(s) && Complete(s) && Apart(s)
  }

  /** Under `Exact`, the prioritized set holds exactly the stored tasks and subtasks. */
  lemma ExactMembers(s: Store)
    requires Exact(s)
    ensures forall t :: t in s.prioritized <==> Stored(s, t)
  {
    forall t | t in s.prioritized ensures Stored(s, t) {
      MemberStored(s, t);
    }
  }

  /** The constructor's state is exact. */
  lemma EmptyStoreExact()
    ensures Exact(EmptyStore)
  {
    StoreProperties.EmptyStoreInv();
  }

  lemma MemberStored(s: Store, e: Task)
    requires PrioritizedWellFormed(s) && e in s.prioritized
    ensures Stored(s, e)
  {
    var k :| 0 <= k < |s.prioritized| && s.prioritized[k] == e;
  }

  /**
   * A task or subtask that spans time and passed the overlap check against
   * `all` compares equal to no member of `items` of another id: two dated
   * items with one start and positive durations overlap, and two undated
   * items compare equal only when their ids are equal.
   */
  lemma AdmittedIsNew(all: seq<Task>, items: seq<Task>, t: Task)
    requires Spans(t) && !t.IsEpic() && !Overlap.CheckForTimeOverlap(all, t)
    requires forall e :: e in items ==> e in all && e.id != t.id && Spans(e) && !e.IsEpic()
    ensures !PrioritySet.HasEqual(items, t)
  {
    if PrioritySet.HasEqual(items, t) {
      var i :| 0 <= i < |items| && PrioritySet.Compare(items[i], t) == 0;
      var e := items[i];
      assert e in items;
      PrioritySet.CompareLaws(e, t, t);
      var k :| 0 <= k < |all| && all[k] == e;
      Overlap.OverlapRefused(all, t, k);
      assert false;
    }
  }

  // Adding and updating.

  /**
   * Adding a newly built item that spans time under an id no task or
   * subtask has keeps the state exact: a task or subtask goes into the set.
   */
  lemma AddTaskKeepsExact(s: Store, t: Task)
    requires Exact(s) && NewlyBuilt(t) && Spans(t) && AddTask(s, t).Success?
    requires t.id !in s.tasks && t.id !in s.subtasks
    ensures Exact(AddTask(s, t).value)
    ensures !t.IsEpic() ==> t in AddTask(s, t).value.prioritized
  {
    StoreProperties.AddTaskKeepsInv(s, t);
    StoreProperties.AddTaskEffect(s, t);
    if !t.IsEpic() {
      forall e | e in s.prioritized ensures e in s.prioritized && e.id != t.id && Spans(e) && !e.IsEpic() {
        MemberStored(s, e);
      }
      AdmittedIsNew(s.prioritized, s.prioritized, t);
      PrioritySet.InsertProperties(s.prioritized, t);
    }
  }

  /** Replacing the stored `previous` by `t` of the same id and class keeps the set complete. */
  lemma ReplaceKeepsExact(s: Store, t: Task, previous: Task, r: Store)
    requires Exact(s) && Spans(t) && !t.IsEpic() && !Overlap.CheckForTimeOverlap(s.prioritized, t)
    requires Stored(s, previous) && previous.id == t.id && TypeOf(previous) == TypeOf(t)
    requires r.prioritized == PrioritySet.Insert(PrioritySet.Remove(s.prioritized, previous), t)
    requires t.IsPlain() ==> r.tasks == s.tasks[t.id := t] && r.subtasks == s.subtasks
    requires t.IsSubtask() ==> r.tasks == s.tasks && r.subtasks == s.subtasks[t.id := t]
    ensures Complete(r) && Apart(r)
    ensures t in r.prioritized
  {
    var p := s.prioritized;
    var q := PrioritySet.Remove(p, previous);
    PrioritySet.RemoveProperties(p, previous);
    forall e | e in q ensures e in p && e.id != t.id && Spans(e) && !e.IsEpic() {
      MemberStored(s, e);
      PrioritySet.CompareLaws(e, e, e);
    }
    AdmittedIsNew(p, q, t);
    PrioritySet.InsertProperties(q, t);
    forall id | id in s.tasks && id != t.id ensures s.tasks[id] in r.prioritized {
      PrioritySet.DistinctMembers(p, s.tasks[id], previous);
    }
    forall id | id in s.subtasks && id != t.id ensures s.subtasks[id] in r.prioritized {
      PrioritySet.DistinctMembers(p, s.subtasks[id], previous);
    }
  }

  /** A successful update with an item that spans time keeps the state exact. */
  lemma UpdateTaskKeepsExact(s: Store, t: Task)
    requires Exact(s) && Spans(t) && UpdateTask(s, t).Success?
    ensures Exact(UpdateTask(s, t).value)
  {
    var r := UpdateTask(s, t).value;
    UpdateProperties.UpdateTaskKeepsInv(s, t);
    UpdateProperties.UpdateTaskEffect(s, t);
    if t.IsPlain() && t.id in s.tasks {
      ReplaceKeepsExact(s, t, s.tasks[t.id], r);
    } else if t.IsSubtask() && t.id in s.subtasks && EpicIdOf(s.subtasks[t.id]) == t.kind.epicId {
      ReplaceKeepsExact(s, t, s.subtasks[t.id], r);
    }
  }

  // Deleting.

  /** Removing one stored item keeps every other stored item in the set. */
  lemma RemoveKeepsOthers(s: Store, x: Task, e: Task)
    requires Exact(s) && Stored(s, x) && Stored(s, e) && e != x
    ensures e in PrioritySet.Remove(s.prioritized, x)
  {
    PrioritySet.RemoveProperties(s.prioritized, x);
    PrioritySet.DistinctMembers(s.prioritized, e, x);
  }

  lemma DeletePlainBranchKeepsExact(s: Store, id: int)
    requires Exact(s)
    ensures Exact(DeletePlainBranch(s, id).0)
  {
    DeleteProperties.DeletePlainBranchKeepsInv(s, id);
    if id in s.tasks {
      var r := DeletePlainBranch(s, id).0;
      forall k | k in r.tasks ensures r.tasks[k] in r.prioritized {
        RemoveKeepsOthers(s, s.tasks[id], s.tasks[k]);
      }
      forall k | k in r.subtasks ensures r.subtasks[k] in r.prioritized {
        RemoveKeepsOthers(s, s.tasks[id], s.subtasks[k]);
      }
    }
  }

  lemma DeleteSubtaskBranchKeepsExact(s: Store, id: int)
    requires Exact(s)
    ensures Exact(DeleteSubtaskBranch(s, id).0)
  {
    DeleteProperties.DeleteSubtaskBranchKeepsInv(s, id);
    if id in s.subtasks {
      var r := DeleteSubtaskBranch(s, id).0;
      forall k | k in r.tasks ensures r.tasks[k] in r.prioritized {
        RemoveKeepsOthers(s, s.subtasks[id], s.tasks[k]);
      }
      forall k | k in r.subtasks ensures r.subtasks[k] in r.prioritized {
        RemoveKeepsOthers(s, s.subtasks[id], s.subtasks[k]);
      }
    }
  }

  /** Removing stored subtasks by `removeAll` keeps every stored item that is not one of them. */
  lemma RemoveSubtasksKeepsOthers(s: Store, c: seq<Task>, e: Task)
    requires Exact(s) && Stored(s, e)
    requires forall i :: 0 <= i < |c| ==> c[i].IsSubtask() && c[i].id in s.subtasks && s.subtasks[c[i].id] == c[i]
    requires e.IsSubtask() ==> forall i :: 0 <= i < |c| ==> c[i].id != e.id
    ensures e in PrioritySet.RemoveAll(s.prioritized, c)
  {
    PrioritySet.RemoveAllKeeps(s.prioritized, c, e);
  }

  lemma DeleteEpicBranchKeepsExact(s: Store, id: int)
    requires Exact(s)
    ensures Exact(DeleteEpicBranch(s, id).0)
  {
    DeleteProperties.DeleteEpicBranchKeepsInv(s, id);
    if id in s.epics {
      var ids := s.epics[id].kind.subtaskIdList;
      EpicBranchComplete(s, ids, ListedSubtasks(ids, s.subtasks), DeleteEpicBranch(s, id).0);
    }
  }

  /** The epic branch, stated over its result: the subtasks of `ids` leave and the rest stay. */
  lemma EpicBranchComplete(s: Store, ids: seq<int>, c: seq<Task>, r: Store)
    requires Exact(s) && |c| == |ids|
    requires forall i :: 0 <= i < |ids| ==> ids[i] in s.subtasks && c[i] == s.subtasks[ids[i]]
    requires r.tasks == s.tasks && r.subtasks == s.subtasks - (set x | x in ids)
    requires r.prioritized == PrioritySet.RemoveAll(s.prioritized, c)
    ensures Complete(r) && Apart(r)
  {
    assert forall i :: 0 <= i < |c| ==> c[i].id == ids[i] && c[i].IsSubtask();
    forall k | k in r.tasks ensures r.tasks[k] in r.prioritized {
      RemoveSubtasksKeepsOthers(s, c, s.tasks[k]);
    }
    forall k | k in r.subtasks ensures r.subtasks[k] in r.prioritized {
      RemoveSubtasksKeepsOthers(s, c, s.subtasks[k]);
    }
  }

  /** `deleteTaskById` keeps the state exact. */
  lemma DeleteTaskByIdKeepsExact(s: Store, id: int)
    requires Exact(s)
    ensures Exact(DeleteTaskById(s, id).0)
  {
    var s1 := DeletePlainBranch(s, id).0;
    DeletePlainBranchKeepsExact(s, id);
    var s2 := DeleteSubtaskBranch(s1, id).0;
    DeleteSubtaskBranchKeepsExact(s1, id);
    DeleteEpicBranchKeepsExact(s2, id);
  }

  /** `deleteAllTaskType` keeps the state exact: every subtask stays in the set. */
  lemma DeleteAllTaskTypeKeepsExact(s: Store, deleted: seq<Task>)
    requires Exact(s) && IsListing(deleted, s.tasks)
    ensures Exact(DeleteAllTaskType(s, deleted))
  {
    DeleteProperties.DeleteAllTaskTypeKeepsInv(s, deleted);
    forall k | k in s.subtasks ensures s.subtasks[k] in DeleteAllTaskType(s, deleted).prioritized {
      PrioritySet.RemoveAllKeeps(s.prioritized, deleted, s.subtasks[k]);
    }
  }

  /** `deleteAllSubtaskType` keeps the state exact: every task stays in the set. */
  lemma DeleteAllSubtaskTypeKeepsExact(s: Store, deleted: seq<Task>)
    requires Exact(s) && IsListing(deleted, s.subtasks)
    ensures Exact(DeleteAllSubtaskType(s, deleted))
  {
    DeleteProperties.DeleteAllSubtaskTypeKeepsInv(s, deleted);
    forall k | k in s.tasks ensures s.tasks[k] in DeleteAllSubtaskType(s, deleted).prioritized {
      PrioritySet.RemoveAllKeeps(s.prioritized, deleted, s.tasks[k]);
    }
  }

  /** `deleteAllEpicType` keeps the state exact: every task stays in the set. */
  lemma DeleteAllEpicTypeKeepsExact(s: Store, deletedSubtasks: seq<Task>)
    requires Exact(s) && IsListing(deletedSubtasks, s.subtasks)
    ensures Exact(DeleteAllEpicType(s, deletedSubtasks))
  {
    DeleteProperties.DeleteAllEpicTypeKeepsInv(s, deletedSubtasks);
    forall k | k in s.tasks ensures s.tasks[k] in DeleteAllEpicType(s, deletedSubtasks).prioritized {
      PrioritySet.RemoveAllKeeps(s.prioritized, deletedSubtasks, s.tasks[k]);
    }
  }

  // Without positive durations.

  /**
   * A dated task of zero duration hides every later item with its start:
   * the later one is stored but never enters the prioritized set, so the
   * overlap check no longer sees it, and a third task overlapping it is
   * accepted.
   */
  lemma ZeroDurationHidesLaterItem()
    ensures
      var a := Task(1, "a", New, "", 0, Some(600), Plain);
      var b := Task(2, "b", New, "", 60, Some(600), Plain);
      var c := Task(3, "c", New, "", 10, Some(630), Plain);
      && AddTask(EmptyStore, a).Success?
      && var s1 := AddTask(EmptyStore, a).value;
      && AddTask(s1, b).Success?
      && var s2 := AddTask(s1, b).value;
      && Inv(s2) && 2 in s2.tasks && s2.tasks[2] == b
      && b !in s2.prioritized && !Complete(s2)
      && Overlap.IsTimeOverlap(b, c) && AddTask(s2, c).Success?
  {
    var a := Task(1, "a", New, "", 0, Some(600), Plain);
    var b := Task(2, "b", New, "", 60, Some(600), Plain);
    var c := Task(3, "c", New, "", 10, Some(630), Plain);
    StoreProperties.EmptyStoreInv();
    assert !Overlap.Conflicts(a, b) && !Overlap.Conflicts(a, c);
    var s1 := AddTask(EmptyStore, a).value;
    assert s1.prioritized == [a];
    StoreProperties.AddTaskKeepsInv(EmptyStore, a);
    var s2 := AddTask(s1, b).value;
    assert s2.prioritized == [a];
    StoreProperties.AddTaskKeepsInv(s1, b);
  }
}
