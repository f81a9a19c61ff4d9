/**
 * What the repository's operations promise, stated over the `Store`
 * transitions: each keeps the invariant, fails in the order the source
 * checks, and changes what it says and nothing else. The two defects of the
 * source are exhibited against their corrected versions.
 */
module StoreProperties {
  import opened Wrappers
  import opened Model
  import opened Rollup
  import PrioritySet
  import Overlap
  import opened Store

  /** The constructor's state satisfies the invariant. */
  lemma EmptyStoreInv()
    ensures Inv(EmptyStore)
  {
  }

  // Helpers about the prioritized set.

  /** After `Insert` of a stored item, only stored items are in the set, provided the others still are. */
  lemma InsertStored(s: Store, p: seq<Task>, t: Task, r: Store)
    requires PrioritySet.Sorted(p) && r.prioritized == PrioritySet.Insert(p, t)
    requires Stored(r, t)
    requires forall i :: 0 <= i < |p| ==> Stored(r, p[i])
    ensures PrioritizedWellFormed(r)
  {
    PrioritySet.InsertProperties(p, t);
    forall i | 0 <= i < |r.prioritized| ensures Stored(r, r.prioritized[i]) {
      var e := r.prioritized[i];
      assert e in PrioritySet.Insert(p, t);
      if e != t {
        var k :| 0 <= k < |p| && p[k] == e;
      }
    }
  }

  /** A sorted set of stored items, less the element comparing equal to `x`. */
  lemma RemoveFromStored(s: Store, x: Task)
    requires PrioritizedWellFormed(s)
    ensures PrioritySet.Sorted(PrioritySet.Remove(s.prioritized, x))
    ensures forall e :: e in PrioritySet.Remove(s.prioritized, x) ==> Stored(s, e) && e != x
  {
    PrioritySet.RemoveProperties(s.prioritized, x);
    forall e | e in PrioritySet.Remove(s.prioritized, x) ensures Stored(s, e) {
      var k :| 0 <= k < |s.prioritized| && s.prioritized[k] == e;
    }
  }

  // Adding.

  /**
   * `addTask` checks overlap first, then (for a subtask) that the epic
   * exists, then that the id is free in the item's own map.
   */
  lemma AddTaskErrorOrder(s: Store, t: Task)
    requires WellFormed(s)
    ensures Overlap.CheckForTimeOverlap(s.prioritized, t) ==> AddTask(s, t) == Failure(TimeOverlap)
    ensures !Overlap.CheckForTimeOverlap(s.prioritized, t) && t.IsSubtask() && t.kind.epicId !in s.epics ==>
      AddTask(s, t) == Failure(MissingEpic(t.kind.epicId))
    ensures !Overlap.CheckForTimeOverlap(s.prioritized, t) && t.IsSubtask() && t.kind.epicId in s.epics && t.id in s.subtasks ==>
      AddTask(s, t) == Failure(DuplicateTaskId(SubtaskTag, t.id))
    ensures !Overlap.CheckForTimeOverlap(s.prioritized, t) && t.IsPlain() && t.id in s.tasks ==>
      AddTask(s, t) == Failure(DuplicateTaskId(TaskTag, t.id))
    ensures !Overlap.CheckForTimeOverlap(s.prioritized, t) && t.IsEpic() && t.id in s.epics ==>
      AddTask(s, t) == Failure(DuplicateTaskId(EpicTag, t.id))
  {
  }

  /**
   * A successful add stores the item under its id in its own map and leaves
   * the other maps alone, except that a subtask's epic lists the new id last
   * and is recomputed; every other epic is unchanged. A task or a subtask is
   * offered to the prioritized set (which ignores it when an element compares
   * equal); an epic never is.
   */
  lemma AddTaskEffect(s: Store, t: Task)
    requires WellFormed(s) && AddTask(s, t).Success?
    ensures var r := AddTask(s, t).value;
      && (t.IsPlain() ==> r.tasks == s.tasks[t.id := t] && r.epics == s.epics && r.subtasks == s.subtasks
                          && r.prioritized == PrioritySet.Insert(s.prioritized, t))
      && (t.IsEpic() ==> r.epics == s.epics[t.id := t] && r.tasks == s.tasks && r.subtasks == s.subtasks
                         && r.prioritized == s.prioritized)
      && (t.IsSubtask() ==>
            && r.subtasks == s.subtasks[t.id := t] && r.tasks == s.tasks
            && r.prioritized == PrioritySet.Insert(s.prioritized, t)
            && r.epics.Keys == s.epics.Keys
            && r.epics[t.kind.epicId].kind.subtaskIdList == s.epics[t.kind.epicId].kind.subtaskIdList + [t.id]
            && r.epics[t.kind.epicId] == Recalculate(AppendSubtaskId(s.epics[t.kind.epicId], t.id), r.subtasks)
            && RollupFresh(r.epics[t.kind.epicId], r.subtasks)
            && forall e :: e in s.epics && e != t.kind.epicId ==> r.epics[e] == s.epics[e])
  {
    if t.IsSubtask() {
      var r := AddTask(s, t).value;
      RecalculateIdempotent(AppendSubtaskId(s.epics[t.kind.epicId], t.id), r.subtasks);
    }
  }

  /** A successful add of a newly built item keeps the invariant. */
  lemma AddTaskKeepsInv(s: Store, t: Task)
    requires Inv(s) && NewlyBuilt(t) && AddTask(s, t).Success?
    ensures Inv(AddTask(s, t).value)
  {
    var r := AddTask(s, t).value;
    if t.IsPlain() {
      AddPlainKeepsInv(s, t, r);
    } else if t.IsEpic() {
      AddEpicKeepsInv(s, t, r);
    } else {
      assert AddedSubtask(s, t, r);
      AddSubtaskKeepsInv(s, t, r);
    }
  }

  lemma AddPlainKeepsInv(s: Store, t: Task, r: Store)
    requires Inv(s) && t.IsPlain() && t.id !in s.tasks
    requires r == s.(tasks := s.tasks[t.id := t], prioritized := PrioritySet.Insert(s.prioritized, t))
    ensures Inv(r)
  {
    assert WellFormed(r);
    assert RollupsFresh(r);
    InsertStored(s, s.prioritized, t, r);
  }

  lemma AddEpicKeepsInv(s: Store, t: Task, r: Store)
    requires Inv(s) && t.IsEpic() && t.kind.subtaskIdList == [] && t.id !in s.epics
    requires r == s.(epics := s.epics[t.id := t])
    ensures Inv(r)
  {
    assert forall id :: id in s.subtasks ==> EpicIdOf(s.subtasks[id]) != t.id;
    assert WellFormed(r);
    assert RollupsFresh(r);
    assert forall i :: 0 <= i < |r.prioritized| ==> Stored(r, r.prioritized[i]) by {
      forall i | 0 <= i < |r.prioritized| ensures Stored(r, r.prioritized[i]) {
        assert Stored(s, s.prioritized[i]);
      }
    }
  }

  /** The state a successful subtask add leaves. */
  predicate AddedSubtask(s: Store, t: Task, r: Store)
    requires WellFormed(s) && t.IsSubtask() && t.kind.epicId in s.epics
  {
    var subtasks := s.subtasks[t.id := t];
    r == Store(s.tasks, s.epics[t.kind.epicId := Recalculate(AppendSubtaskId(s.epics[t.kind.epicId], t.id), subtasks)],
               subtasks, PrioritySet.Insert(s.prioritized, t))
  }

  lemma AddSubtaskKeepsInv(s: Store, t: Task, r: Store)
    requires Inv(s) && t.IsSubtask() && t.kind.epicId in s.epics && t.id !in s.subtasks
    requires AddedSubtask(s, t, r)
    ensures Inv(r)
  {
    AddedSubtaskWellFormed(s, t, r);
    AddedSubtaskFresh(s, t, r);
    InsertStored(s, s.prioritized, t, r);
  }

  lemma AddedSubtaskWellFormed(s: Store, t: Task, r: Store)
    requires WellFormed(s) && t.IsSubtask() && t.kind.epicId in s.epics && t.id !in s.subtasks
    requires AddedSubtask(s, t, r)
    ensures WellFormed(r)
  {
    var epicId := t.kind.epicId;
    var linked := r.epics[epicId];
    assert linked.IsEpic() && linked.id == epicId;
    assert linked.kind.subtaskIdList == SubtaskIdsOf(s.epics[epicId]) + [t.id];
    LinkSubtaskWellFormed(s, t, linked, r);
  }

  /** Storing a new subtask and appending its id to its epic's list keeps the store well formed. */
  lemma LinkSubtaskWellFormed(s: Store, t: Task, linked: Task, r: Store)
    requires WellFormed(s) && t.IsSubtask() && t.kind.epicId in s.epics && t.id !in s.subtasks
    requires linked.IsEpic() && linked.id == t.kind.epicId
    requires linked.kind.subtaskIdList == SubtaskIdsOf(s.epics[t.kind.epicId]) + [t.id]
    requires r.tasks == s.tasks && r.epics == s.epics[t.kind.epicId := linked] && r.subtasks == s.subtasks[t.id := t]
    ensures WellFormed(r)
  {
    assert KeysConsistent(r);
    LinkSubtaskListsResolve(s, t, linked, r);
    LinkSubtaskLinked(s, t, linked, r);
  }

  lemma LinkSubtaskListsResolve(s: Store, t: Task, linked: Task, r: Store)
    requires WellFormed(s) && t.IsSubtask() && t.kind.epicId in s.epics && t.id !in s.subtasks
    requires linked.IsEpic() && linked.id == t.kind.epicId
    requires linked.kind.subtaskIdList == SubtaskIdsOf(s.epics[t.kind.epicId]) + [t.id]
    requires r.tasks == s.tasks && r.epics == s.epics[t.kind.epicId := linked] && r.subtasks == s.subtasks[t.id := t]
    ensures ListsResolve(r)
  {
    var epicId := t.kind.epicId;
    var before := SubtaskIdsOf(s.epics[epicId]);
    var list := linked.kind.subtaskIdList;
    assert t.id !in before;
    assert Distinct(list);
    forall e | e in r.epics
      ensures forall i :: 0 <= i < |SubtaskIdsOf(r.epics[e])| ==>
        SubtaskIdsOf(r.epics[e])[i] in r.subtasks && EpicIdOf(r.subtasks[SubtaskIdsOf(r.epics[e])[i]]) == e
    {
      if e == epicId {
        forall i | 0 <= i < |list| ensures list[i] in r.subtasks && EpicIdOf(r.subtasks[list[i]]) == e {
          if i < |list| - 1 {
            assert list[i] == before[i];
          }
        }
      } else {
        assert r.epics[e] == s.epics[e];
        forall i | 0 <= i < |SubtaskIdsOf(s.epics[e])|
          ensures SubtaskIdsOf(s.epics[e])[i] != t.id
        {
        }
      }
    }
  }

  lemma LinkSubtaskLinked(s: Store, t: Task, linked: Task, r: Store)
    requires WellFormed(s) && t.IsSubtask() && t.kind.epicId in s.epics && t.id !in s.subtasks
    requires linked.IsEpic() && linked.id == t.kind.epicId
    requires linked.kind.subtaskIdList == SubtaskIdsOf(s.epics[t.kind.epicId]) + [t.id]
    requires r.tasks == s.tasks && r.epics == s.epics[t.kind.epicId := linked] && r.subtasks == s.subtasks[t.id := t]
    ensures SubtasksLinked(r)
  {
    var epicId := t.kind.epicId;
    var list := linked.kind.subtaskIdList;
    forall x | x in r.subtasks
      ensures EpicIdOf(r.subtasks[x]) in r.epics && x in SubtaskIdsOf(r.epics[EpicIdOf(r.subtasks[x])])
    {
      if x != t.id {
        var ex := EpicIdOf(s.subtasks[x]);
        assert x in SubtaskIdsOf(s.epics[ex]);
        if ex == epicId {
          assert x in list;
        }
      } else {
        assert list[|list| - 1] == t.id;
      }
    }
  }

  lemma AddedSubtaskFresh(s: Store, t: Task, r: Store)
    requires Inv(s) && t.IsSubtask() && t.kind.epicId in s.epics && t.id !in s.subtasks
    requires AddedSubtask(s, t, r)
    ensures RollupsFresh(r)
  {
    var epicId := t.kind.epicId;
    RecalculateIdempotent(AppendSubtaskId(s.epics[epicId], t.id), r.subtasks);
    forall e | e in r.epics && e != epicId && r.epics[e].kind.subtaskIdList != []
      ensures RollupFresh(r.epics[e], r.subtasks)
    {
      assert t.id !in SubtaskIdsOf(s.epics[e]);
      RecalculateReadsOnlyListed(s.epics[e], s.subtasks, r.subtasks);
    }
  }
}
