/**
 * What `deleteTaskById` and the bulk deletes promise, and the defect in the
 * subtask branch of `deleteTaskById`.
 */
module DeleteProperties {
  import opened Wrappers
  import opened Model
  import opened Rollup
  import PrioritySet
  import opened Store
  import opened StoreProperties

  // deleteTaskById.

  lemma DeletePlainBranchKeepsInv(s: Store, id: int)
    requires Inv(s)
    ensures Inv(DeletePlainBranch(s, id).0)
  {
    if id in s.tasks {
      var r := DeletePlainBranch(s, id).0;
      RemoveFromStored(s, s.tasks[id]);
      forall i | 0 <= i < |r.prioritized| ensures Stored(r, r.prioritized[i]) {
        assert r.prioritized[i] in r.prioritized;
      }
    }
  }

  lemma DeleteSubtaskBranchKeepsInv(s: Store, id: int)
    requires Inv(s)
    ensures Inv(DeleteSubtaskBranch(s, id).0)
  {
    if id in s.subtasks {
      SubtaskBranchShape(s, id);
      var r := DeleteSubtaskBranch(s, id).0;
      SubtaskBranchFresh(s, id, r);
      SubtaskBranchPrioritized(s, id, r);
    }
  }

  /** After the subtask branch, every epic with subtasks is still in step with them. */
  lemma SubtaskBranchFresh(s: Store, id: int, r: Store)
    requires Inv(s) && id in s.subtasks && KeysConsistent(r)
    requires var epicId := s.subtasks[id].kind.epicId;
      && r.subtasks == s.subtasks - {id}
      && r.epics == s.epics[epicId := DetachSubtask(s.epics[epicId], id, r.subtasks)]
    ensures RollupsFresh(r)
  {
    var epicId := s.subtasks[id].kind.epicId;
    var detached := s.epics[epicId].(kind := s.epics[epicId].kind.(subtaskIdList := RemoveFirst(s.epics[epicId].kind.subtaskIdList, id)));
    RecalculateIdempotent(detached, r.subtasks);
    forall e | e in r.epics && e != epicId && r.epics[e].kind.subtaskIdList != []
      ensures RollupFresh(r.epics[e], r.subtasks)
    {
      assert forall i :: 0 <= i < |SubtaskIdsOf(s.epics[e])| ==> SubtaskIdsOf(s.epics[e])[i] != id;
      RecalculateReadsOnlyListed(s.epics[e], s.subtasks, r.subtasks);
    }
  }

  /** After the subtask branch, the set holds only stored items. */
  lemma SubtaskBranchPrioritized(s: Store, id: int, r: Store)
    requires PrioritizedWellFormed(s) && id in s.subtasks
    requires r.tasks == s.tasks && r.subtasks == s.subtasks - {id}
    requires r.prioritized == PrioritySet.Remove(s.prioritized, s.subtasks[id])
    ensures PrioritizedWellFormed(r)
  {
    RemoveFromStored(s, s.subtasks[id]);
    forall i | 0 <= i < |r.prioritized| ensures Stored(r, r.prioritized[i]) {
      assert r.prioritized[i] in r.prioritized;
    }
  }

  lemma DeleteEpicBranchKeepsInv(s: Store, id: int)
    requires Inv(s)
    ensures Inv(DeleteEpicBranch(s, id).0)
  {
    if id in s.epics {
      var r := DeleteEpicBranch(s, id).0;
      var ids := s.epics[id].kind.subtaskIdList;
      var removed := ListedSubtasks(ids, s.subtasks);
      forall e | e in r.epics && r.epics[e].kind.subtaskIdList != []
        ensures RollupFresh(r.epics[e], r.subtasks)
      {
        forall i | 0 <= i < |SubtaskIdsOf(s.epics[e])| ensures SubtaskIdsOf(s.epics[e])[i] !in ids {
          assert EpicIdOf(s.subtasks[SubtaskIdsOf(s.epics[e])[i]]) == e;
        }
        RecalculateReadsOnlyListed(s.epics[e], s.subtasks, r.subtasks);
      }
      PrioritySet.RemoveAllProperties(s.prioritized, removed);
      forall i | 0 <= i < |r.prioritized| ensures Stored(r, r.prioritized[i]) {
        var x := r.prioritized[i];
        assert x in s.prioritized;
        var k :| 0 <= k < |s.prioritized| && s.prioritized[k] == x;
        assert Stored(s, x);
      }
    }
  }

  /** `deleteTaskById` keeps the invariant. */
  lemma DeleteTaskByIdKeepsInv(s: Store, id: int)
    requires Inv(s)
    ensures Inv(DeleteTaskById(s, id).0)
  {
    var s1 := DeletePlainBranch(s, id).0;
    DeletePlainBranchKeepsInv(s, id);
    var s2 := DeleteSubtaskBranch(s1, id).0;
    DeleteSubtaskBranchKeepsInv(s1, id);
    DeleteEpicBranchKeepsInv(s2, id);
  }

  /** `t` is stored, under its own id, in one of the three maps. */
  predicate WasStored(s: Store, t: Task)
  {
    || (t.id in s.tasks && s.tasks[t.id] == t)
    || (t.id in s.subtasks && s.subtasks[t.id] == t)
    || (t.id in s.epics && s.epics[t.id] == t)
  }

  /** After `deleteTaskById` nothing is stored under the id any more. */
  lemma DeleteTaskByIdRemoves(s: Store, id: int)
    requires WellFormed(s)
    ensures var r := DeleteTaskById(s, id).0;
      id !in r.tasks && id !in r.subtasks && id !in r.epics
  {
    var s1 := DeletePlainBranch(s, id).0;
    var s2 := DeleteSubtaskBranch(s1, id).0;
    assert s2.epics.Keys == s1.epics.Keys;
  }

  /** An id that is stored nowhere changes nothing and reports nothing. */
  lemma DeleteUnknownId(s: Store, id: int)
    requires WellFormed(s) && GetTaskById(s, id).None?
    ensures DeleteTaskById(s, id) == (s, [])
  {
    assert DeletePlainBranch(s, id) == (s, []);
    assert DeleteSubtaskBranch(s, id) == (s, []);
    assert DeleteEpicBranch(s, id) == (s, []);
    var none: seq<Task> := [];
    assert none + none + none == none;
  }

  /**
   * Every item `deleteTaskById` reports was stored before the call, when the
   * id does not name both a subtask and an epic (ids from the generator never do).
   */
  lemma DeleteReportsStored(s: Store, id: int)
    requires WellFormed(s) && (id !in s.subtasks || id !in s.epics)
    ensures var deleted := DeleteTaskById(s, id).1;
      forall i :: 0 <= i < |deleted| ==> WasStored(s, deleted[i])
  {
    var (s1, d1) := DeletePlainBranch(s, id);
    var (s2, d2) := DeleteSubtaskBranch(s1, id);
    var d3 := DeleteEpicBranch(s2, id).1;
    assert s1.subtasks == s.subtasks && s1.epics == s.epics;
    assert AllStored(s, d1);
    if id in s.subtasks {
      assert s2.epics.Keys == s.epics.Keys;
      assert d3 == [];
      assert AllStored(s, d2);
    } else {
      assert s2 == s1 && d2 == [];
      EpicBranchReportsStored(s, s1, id);
    }
    AllStoredConcat(s, d1, d2, d3);
  }

  predicate AllStored(s: Store, xs: seq<Task>)
  {
    forall i :: 0 <= i < |xs| ==> WasStored(s, xs[i])
  }

  lemma AllStoredConcat(s: Store, a: seq<Task>, b: seq<Task>, c: seq<Task>)
    requires AllStored(s, a) && AllStored(s, b) && AllStored(s, c)
    ensures AllStored(s, a + b + c)
  {
    forall i | 0 <= i < |a + b + c| ensures WasStored(s, (a + b + c)[i]) {
      if i >= |a| + |b| {
        assert (a + b + c)[i] == c[i - |a| - |b|];
      }
    }
  }

  /** The epic branch, run on a state with the same epics and subtasks as `s`, reports only items of `s`. */
  lemma EpicBranchReportsStored(s: Store, s1: Store, id: int)
    requires WellFormed(s1) && s1.epics == s.epics && s1.subtasks == s.subtasks
    ensures AllStored(s, DeleteEpicBranch(s1, id).1)
  {
    var d3 := DeleteEpicBranch(s1, id).1;
    if id in s1.epics {
      var ids := s1.epics[id].kind.subtaskIdList;
      forall k | 1 <= k < |d3| ensures WasStored(s, d3[k]) {
        assert ids[k - 1] in s1.subtasks;
      }
    }
  }

  /**
   * Deleting an epic (an id that is neither a task nor a subtask) reports the
   * epic first and then its subtasks in list order, and removes all of them
   * from the maps and the prioritized set.
   */
  lemma DeleteEpicById(s: Store, id: int)
    requires Inv(s) && id in s.epics && id !in s.tasks && id !in s.subtasks
    ensures var ids := s.epics[id].kind.subtaskIdList;
      var (r, deleted) := DeleteTaskById(s, id);
      && deleted == [s.epics[id]] + ListedSubtasks(ids, s.subtasks)
      && (forall j :: 0 <= j < |ids| ==> ids[j] !in r.subtasks)
      && (forall j :: 0 <= j < |ids| ==> s.subtasks[ids[j]] !in r.prioritized)
      && r.tasks == s.tasks && r.epics == s.epics - {id}
      && r.subtasks == s.subtasks - (set x | x in ids)
      && r.prioritized == PrioritySet.RemoveAll(s.prioritized, ListedSubtasks(ids, s.subtasks))
  {
    var ids := s.epics[id].kind.subtaskIdList;
    PrioritySet.RemoveAllProperties(s.prioritized, ListedSubtasks(ids, s.subtasks));
  }

  /**
   * Deleting a subtask removes it from its map, from the prioritized set and
   * from its epic's list, reports it, and leaves its epic recomputed.
   */
  lemma DeleteSubtaskById(s: Store, id: int)
    requires Inv(s) && id in s.subtasks && id !in s.tasks && id !in s.epics
    ensures var epicId := s.subtasks[id].kind.epicId;
      var (r, deleted) := DeleteTaskById(s, id);
      && deleted == [s.subtasks[id]]
      && r.subtasks == s.subtasks - {id} && r.tasks == s.tasks
      && epicId in r.epics && id !in r.epics[epicId].kind.subtaskIdList
      && RollupFresh(r.epics[epicId], r.subtasks)
      && s.subtasks[id] !in r.prioritized
      && r.prioritized == PrioritySet.Remove(s.prioritized, s.subtasks[id])
      && r.epics[epicId] == DetachSubtask(s.epics[epicId], id, r.subtasks)
      && r.epics[epicId].kind.subtaskIdList == RemoveFirst(s.epics[epicId].kind.subtaskIdList, id)
      && r.epics.Keys == s.epics.Keys
      && (forall e :: e in s.epics && e != epicId ==> r.epics[e] == s.epics[e])
  {
    var epicId := s.subtasks[id].kind.epicId;
    var list := s.epics[epicId].kind.subtaskIdList;
    OnlySubtaskBranch(s, id);
    SubtaskBranchShape(s, id);
    RemoveFirstOfDistinct(list, id);
    var r := DeleteSubtaskBranch(s, id).0;
    var detached := s.epics[epicId].(kind := s.epics[epicId].kind.(subtaskIdList := RemoveFirst(list, id)));
    RecalculateIdempotent(detached, r.subtasks);
    PrioritySet.RemoveProperties(s.prioritized, s.subtasks[id]);
  }

  /** The state the subtask branch leaves, field by field. */
  lemma SubtaskBranchShape(s: Store, id: int)
    requires WellFormed(s) && id in s.subtasks
    ensures var epicId := s.subtasks[id].kind.epicId;
      var (r, deleted) := DeleteSubtaskBranch(s, id);
      && deleted == [s.subtasks[id]]
      && r.subtasks == s.subtasks - {id} && r.tasks == s.tasks
      && r.prioritized == PrioritySet.Remove(s.prioritized, s.subtasks[id])
      && r.epics == s.epics[epicId := DetachSubtask(s.epics[epicId], id, r.subtasks)]
  {
  }

  /**
   * Deleting a plain task removes it from its map and from the prioritized
   * set and reports it; epics and subtasks are untouched.
   */
  lemma DeletePlainTaskById(s: Store, id: int)
    requires Inv(s) && id in s.tasks && id !in s.subtasks && id !in s.epics
    ensures var (r, deleted) := DeleteTaskById(s, id);
      && deleted == [s.tasks[id]]
      && r.tasks == s.tasks - {id} && r.epics == s.epics && r.subtasks == s.subtasks
      && s.tasks[id] !in r.prioritized
      && r.prioritized == PrioritySet.Remove(s.prioritized, s.tasks[id])
  {
    var (s1, d1) := DeletePlainBranch(s, id);
    assert DeleteSubtaskBranch(s1, id) == (s1, []);
    assert DeleteEpicBranch(s1, id) == (s1, []);
    assert d1 + [] + [] == d1;
    PrioritySet.RemoveProperties(s.prioritized, s.tasks[id]);
  }

  /** For the id of a subtask only, the other two branches do nothing. */
  lemma OnlySubtaskBranch(s: Store, id: int)
    requires WellFormed(s) && id in s.subtasks && id !in s.tasks && id !in s.epics
    ensures DeleteTaskById(s, id) == DeleteSubtaskBranch(s, id)
  {
    assert DeletePlainBranch(s, id) == (s, []);
    var (s2, d2) := DeleteSubtaskBranch(s, id);
    assert s2.epics.Keys == s.epics.Keys;
    assert DeleteEpicBranch(s2, id) == (s2, []);
    assert [] + d2 + [] == d2;
  }

  // The defect in the subtask branch.

  /**
   * As written, deleting a subtask always throws: the subtask is gone from
   * its map but its epic still lists it, so the store is no longer well
   * formed. The intended version succeeds and keeps the invariant.
   */
  lemma DeleteSubtaskAsWrittenFails(s: Store, id: int)
    requires Inv(s) && id in s.subtasks
    ensures var (r, outcome) := DeleteTaskByIdAsWritten(s, id);
      outcome == Failure(NullPointer) && !WellFormed(r)
    ensures Inv(DeleteTaskById(s, id).0) && s.subtasks[id] in DeleteTaskById(s, id).1
  {
    var s1 := DeletePlainBranch(s, id).0;
    var r := DeleteTaskByIdAsWritten(s, id).0;
    var epicId := s.subtasks[id].kind.epicId;
    assert id in SubtaskIdsOf(r.epics[epicId]);
    assert id !in r.subtasks;
    var list := SubtaskIdsOf(r.epics[epicId]);
    var k :| 0 <= k < |list| && list[k] == id;
    DeleteTaskByIdKeepsInv(s, id);
  }

  /** For an id that is not a subtask, the method as written and the intended one agree. */
  lemma DeleteAsWrittenAgreesOtherwise(s: Store, id: int)
    requires WellFormed(s) && id !in s.subtasks
    ensures DeleteTaskByIdAsWritten(s, id) == (DeleteTaskById(s, id).0, Success(DeleteTaskById(s, id).1))
  {
    var (s1, d1) := DeletePlainBranch(s, id);
    var d3 := DeleteEpicBranch(s1, id).1;
    assert d1 + [] + d3 == d1 + d3;
  }

  // Bulk deletes.

  /** A stored item of a map that a listing covers is in the listing. */
  lemma ListingCovers(deleted: seq<Task>, m: map<int, Task>, x: Task)
    requires IsListing(deleted, m) && x.id in m && m[x.id] == x
    ensures exists i :: 0 <= i < |deleted| && deleted[i] == x
  {
    var i :| 0 <= i < |deleted| && deleted[i].id == x.id;
  }

  /** `deleteAllTaskType` keeps the invariant and leaves no task stored or prioritized. */
  lemma DeleteAllTaskTypeKeepsInv(s: Store, deleted: seq<Task>)
    requires Inv(s) && IsListing(deleted, s.tasks)
    ensures Inv(DeleteAllTaskType(s, deleted))
    ensures forall i :: 0 <= i < |DeleteAllTaskType(s, deleted).prioritized| ==> DeleteAllTaskType(s, deleted).prioritized[i].IsSubtask()
  {
    var r := DeleteAllTaskType(s, deleted);
    PrioritySet.RemoveAllProperties(s.prioritized, deleted);
    forall i | 0 <= i < |r.prioritized| ensures Stored(r, r.prioritized[i]) {
      var x := r.prioritized[i];
      assert x in s.prioritized;
      var k :| 0 <= k < |s.prioritized| && s.prioritized[k] == x;
      if x.IsPlain() {
        ListingCovers(deleted, s.tasks, x);
      }
    }
  }

  /**
   * `deleteAllSubtaskType` keeps the invariant: every epic ends with an empty
   * list and status NEW and keeps its times, and no subtask stays prioritized.
   */
  lemma DeleteAllSubtaskTypeKeepsInv(s: Store, deleted: seq<Task>)
    requires Inv(s) && IsListing(deleted, s.subtasks)
    ensures Inv(DeleteAllSubtaskType(s, deleted))
    ensures var r := DeleteAllSubtaskType(s, deleted);
      && r.epics.Keys == s.epics.Keys
      && (forall e :: e in r.epics ==>
            (r.epics[e].kind.subtaskIdList == [] && r.epics[e].status == New
             && r.epics[e].startTime == s.epics[e].startTime && EndTime(r.epics[e]) == EndTime(s.epics[e])))
      && forall i :: 0 <= i < |r.prioritized| ==> r.prioritized[i].IsPlain()
  {
    var r := DeleteAllSubtaskType(s, deleted);
    PrioritySet.RemoveAllProperties(s.prioritized, deleted);
    forall i | 0 <= i < |r.prioritized| ensures Stored(r, r.prioritized[i]) {
      var x := r.prioritized[i];
      assert x in s.prioritized;
      var k :| 0 <= k < |s.prioritized| && s.prioritized[k] == x;
      if x.IsSubtask() {
        ListingCovers(deleted, s.subtasks, x);
      }
    }
  }

  /** `deleteAllEpicType` keeps the invariant and leaves only plain tasks, none of them changed. */
  lemma DeleteAllEpicTypeKeepsInv(s: Store, deletedSubtasks: seq<Task>)
    requires Inv(s) && IsListing(deletedSubtasks, s.subtasks)
    ensures Inv(DeleteAllEpicType(s, deletedSubtasks))
    ensures DeleteAllEpicType(s, deletedSubtasks).tasks == s.tasks
  {
    var r := DeleteAllEpicType(s, deletedSubtasks);
    PrioritySet.RemoveAllProperties(s.prioritized, deletedSubtasks);
    forall i | 0 <= i < |r.prioritized| ensures Stored(r, r.prioritized[i]) {
      var x := r.prioritized[i];
      assert x in s.prioritized;
      var k :| 0 <= k < |s.prioritized| && s.prioritized[k] == x;
      if x.IsSubtask() {
        ListingCovers(deletedSubtasks, s.subtasks, x);
      }
    }
  }
}
