/** What `updateTask` promises, and the boxed-`Integer` defect of `updateSubtask`. */
module UpdateProperties {
  import opened Wrappers
  import opened Model
  import opened Rollup
  import PrioritySet
  import Overlap
  import opened Store
  import opened StoreProperties

  /**
   * The overlap check runs first, even for an id the repository does not
   * know; past it, an unknown id changes nothing, a subtask that names
   * another epic changes nothing, and an epic takes only the new name and
   * description. A task or subtask that is replaced has the element comparing
   * equal to its old version taken out of the prioritized set and the new
   * version offered to it.
   */
  lemma UpdateTaskEffect(s: Store, t: Task)
    requires WellFormed(s)
    ensures Overlap.CheckForTimeOverlap(s.prioritized, t) <==> UpdateTask(s, t) == Failure(TimeOverlap)
    ensures UpdateTask(s, t).Failure? ==> UpdateTask(s, t) == Failure(TimeOverlap)
    ensures !Overlap.CheckForTimeOverlap(s.prioritized, t) ==>
      && (t.IsPlain() && t.id !in s.tasks ==> UpdateTask(s, t) == Success(s))
      && (t.IsEpic() && t.id !in s.epics ==> UpdateTask(s, t) == Success(s))
      && (t.IsSubtask() && (t.id !in s.subtasks || EpicIdOf(s.subtasks[t.id]) != t.kind.epicId) ==>
            UpdateTask(s, t) == Success(s))
      && (t.IsPlain() && t.id in s.tasks ==>
            && UpdateTask(s, t).value.tasks == s.tasks[t.id := t]
            && UpdateTask(s, t).value.prioritized
               == PrioritySet.Insert(PrioritySet.Remove(s.prioritized, s.tasks[t.id]), t)
            && UpdateTask(s, t).value.(tasks := s.tasks, prioritized := s.prioritized) == s)
      && (t.IsEpic() && t.id in s.epics ==>
            UpdateTask(s, t) == Success(s.(epics := s.epics[t.id := s.epics[t.id].(name := t.name, description := t.description)])))
      && (t.IsSubtask() && t.id in s.subtasks && EpicIdOf(s.subtasks[t.id]) == t.kind.epicId ==>
            && UpdateTask(s, t).value.subtasks == s.subtasks[t.id := t]
            && UpdateTask(s, t).value.tasks == s.tasks
            && UpdateTask(s, t).value.prioritized
               == PrioritySet.Insert(PrioritySet.Remove(s.prioritized, s.subtasks[t.id]), t)
            && UpdateTask(s, t).value.epics.Keys == s.epics.Keys
            && UpdateTask(s, t).value.epics[t.kind.epicId] == Recalculate(s.epics[t.kind.epicId], s.subtasks[t.id := t])
            && RollupFresh(UpdateTask(s, t).value.epics[t.kind.epicId], s.subtasks[t.id := t])
            && forall e :: e in s.epics && e != t.kind.epicId ==> UpdateTask(s, t).value.epics[e] == s.epics[e])
  {
    if !Overlap.CheckForTimeOverlap(s.prioritized, t) && t.IsSubtask() && t.id in s.subtasks
       && EpicIdOf(s.subtasks[t.id]) == t.kind.epicId {
      RecalculateIdempotent(s.epics[t.kind.epicId], s.subtasks[t.id := t]);
    }
  }

  /** A successful update keeps the invariant. */
  lemma UpdateTaskKeepsInv(s: Store, t: Task)
    requires Inv(s) && UpdateTask(s, t).Success?
    ensures Inv(UpdateTask(s, t).value)
  {
    var r := UpdateTask(s, t).value;
    if r != s {
      UpdateTaskEffect(s, t);
      if t.IsPlain() {
        ReplacePlainKeepsInv(s, t, r);
      } else if t.IsEpic() {
        ReplaceEpicKeepsInv(s, t, r);
      } else {
        assert ReplacedSubtask(s, t, r);
        ReplaceSubtaskKeepsInv(s, t, r);
      }
    }
  }

  lemma ReplaceEpicKeepsInv(s: Store, t: Task, r: Store)
    requires Inv(s) && t.id in s.epics
    requires r == s.(epics := s.epics[t.id := CopyNameAndDescription(s.epics[t.id], t)])
    ensures Inv(r)
  {
    var e := s.epics[t.id];
    RecalculateIgnoresText(e, t.name, t.description, s.subtasks);
    assert WellFormed(r);
    assert forall i :: 0 <= i < |r.prioritized| ==> Stored(r, r.prioritized[i]) by {
      forall i | 0 <= i < |r.prioritized| ensures Stored(r, r.prioritized[i]) {
        assert Stored(s, s.prioritized[i]);
      }
    }
  }

  lemma ReplacePlainKeepsInv(s: Store, t: Task, r: Store)
    requires Inv(s) && t.IsPlain() && t.id in s.tasks
    requires r == s.(tasks := s.tasks[t.id := t],
                     prioritized := PrioritySet.Insert(PrioritySet.Remove(s.prioritized, s.tasks[t.id]), t))
    ensures Inv(r)
  {
    var p := PrioritySet.Remove(s.prioritized, s.tasks[t.id]);
    RemoveFromStored(s, s.tasks[t.id]);
    forall i | 0 <= i < |p| ensures Stored(r, p[i]) {
      assert p[i] in p;
    }
    InsertStored(s, p, t, r);
  }

  /** The state a subtask replacement leaves. */
  predicate ReplacedSubtask(s: Store, t: Task, r: Store)
    requires WellFormed(s) && t.IsSubtask() && t.id in s.subtasks && EpicIdOf(s.subtasks[t.id]) == t.kind.epicId
  {
    var subtasks := s.subtasks[t.id := t];
    r == Store(s.tasks, s.epics[t.kind.epicId := Recalculate(s.epics[t.kind.epicId], subtasks)], subtasks,
               PrioritySet.Insert(PrioritySet.Remove(s.prioritized, s.subtasks[t.id]), t))
  }

  lemma ReplaceSubtaskKeepsInv(s: Store, t: Task, r: Store)
    requires Inv(s) && t.IsSubtask() && t.id in s.subtasks && EpicIdOf(s.subtasks[t.id]) == t.kind.epicId
    requires ReplacedSubtask(s, t, r)
    ensures Inv(r)
  {
    var epicId := t.kind.epicId;
    var recomputed := r.epics[epicId];
    assert recomputed.IsEpic() && recomputed.kind.subtaskIdList == s.epics[epicId].kind.subtaskIdList;
    ReplaceSubtaskWellFormed(s, t, recomputed, r);
    ReplaceSubtaskFresh(s, t, r);
    ReplaceSubtaskPrioritized(s, t, r);
  }

  lemma ReplaceSubtaskFresh(s: Store, t: Task, r: Store)
    requires Inv(s) && t.IsSubtask() && t.id in s.subtasks && EpicIdOf(s.subtasks[t.id]) == t.kind.epicId
    requires ReplacedSubtask(s, t, r) && KeysConsistent(r)
    ensures RollupsFresh(r)
  {
    var epicId := t.kind.epicId;
    RecalculateIdempotent(s.epics[epicId], r.subtasks);
    forall e | e in r.epics && e != epicId && r.epics[e].kind.subtaskIdList != []
      ensures RollupFresh(r.epics[e], r.subtasks)
    {
      assert forall i :: 0 <= i < |SubtaskIdsOf(s.epics[e])| ==> SubtaskIdsOf(s.epics[e])[i] != t.id;
      RecalculateReadsOnlyListed(s.epics[e], s.subtasks, r.subtasks);
    }
  }

  lemma ReplaceSubtaskPrioritized(s: Store, t: Task, r: Store)
    requires Inv(s) && t.IsSubtask() && t.id in s.subtasks && EpicIdOf(s.subtasks[t.id]) == t.kind.epicId
    requires ReplacedSubtask(s, t, r)
    ensures PrioritizedWellFormed(r)
  {
    var p := PrioritySet.Remove(s.prioritized, s.subtasks[t.id]);
    assert r.tasks == s.tasks && r.subtasks == s.subtasks[t.id := t] && r.prioritized == PrioritySet.Insert(p, t);
    SubtaskSwapPrioritized(s, t, r);
  }

  /** Swapping one stored subtask for `t` in the map and in the set leaves only stored items in the set. */
  lemma SubtaskSwapPrioritized(s: Store, t: Task, r: Store)
    requires PrioritizedWellFormed(s) && t.IsSubtask() && t.id in s.subtasks
    requires r.tasks == s.tasks && r.subtasks == s.subtasks[t.id := t]
    requires r.prioritized == PrioritySet.Insert(PrioritySet.Remove(s.prioritized, s.subtasks[t.id]), t)
    ensures PrioritizedWellFormed(r)
  {
    var p := PrioritySet.Remove(s.prioritized, s.subtasks[t.id]);
    RemoveFromStored(s, s.subtasks[t.id]);
    forall i | 0 <= i < |p| ensures Stored(r, p[i]) {
      assert p[i] in p;
    }
    InsertStored(s, p, t, r);
  }

  lemma ReplaceSubtaskWellFormed(s: Store, t: Task, recomputed: Task, r: Store)
    requires WellFormed(s) && t.IsSubtask() && t.id in s.subtasks && EpicIdOf(s.subtasks[t.id]) == t.kind.epicId
    requires recomputed.IsEpic() && recomputed.id == t.kind.epicId
    requires recomputed.kind.subtaskIdList == s.epics[t.kind.epicId].kind.subtaskIdList
    requires r.tasks == s.tasks && r.epics == s.epics[t.kind.epicId := recomputed] && r.subtasks == s.subtasks[t.id := t]
    ensures WellFormed(r)
  {
    forall e | e in r.epics ensures SubtaskIdsOf(r.epics[e]) == SubtaskIdsOf(s.epics[e]) {
    }
  }

  // The boxed-Integer defect.

  /**
   * As written, replacing a subtask whose epic id lies outside -128..127 is
   * silently ignored, while the intended update replaces it.
   */
  lemma UpdateAsWrittenDropsLargeEpicIds(s: Store, t: Task)
    requires WellFormed(s) && t.IsSubtask() && t.id in s.subtasks
    requires EpicIdOf(s.subtasks[t.id]) == t.kind.epicId && !(-128 <= t.kind.epicId <= 127)
    requires !Overlap.CheckForTimeOverlap(s.prioritized, t)
    ensures UpdateTaskAsWritten(s, t) == Success(s)
    ensures UpdateTask(s, t).Success? && UpdateTask(s, t).value.subtasks[t.id] == t
  {
  }

  /** Outside that case, the update as written and the intended one agree. */
  lemma UpdateAsWrittenAgreesOtherwise(s: Store, t: Task)
    requires WellFormed(s)
    requires t.IsSubtask() && t.id in s.subtasks ==> -128 <= EpicIdOf(s.subtasks[t.id]) <= 127
    ensures UpdateTaskAsWritten(s, t) == UpdateTask(s, t)
  {
  }

  /** A concrete case: epic 200 and its subtask 201; renaming the subtask is lost as written. */
  lemma UpdateAsWrittenExample()
    ensures var epic := EpicOf(200, "Epic", "", New).(kind := Epic([201], None));
      var sub := SubtaskWithId(201, "Sub", "", New, 200);
      var s := Store(map[], map[200 := Recalculate(epic, map[201 := sub])], map[201 := sub], [sub]);
      var renamed := sub.(name := "Renamed");
      WellFormed(s) && UpdateTaskAsWritten(s, renamed) == Success(s)
      && UpdateTask(s, renamed).Success? && UpdateTask(s, renamed).value.subtasks[201].name == "Renamed"
  {
    var epic := EpicOf(200, "Epic", "", New).(kind := Epic([201], None));
    var sub := SubtaskWithId(201, "Sub", "", New, 200);
    var s := Store(map[], map[200 := Recalculate(epic, map[201 := sub])], map[201 := sub], [sub]);
    var renamed := sub.(name := "Renamed");
    assert SubtaskIdsOf(s.epics[200]) == [201];
    assert WellFormed(s);
    assert !Overlap.CheckForTimeOverlap(s.prioritized, renamed) by {
      assert !Overlap.Conflicts(s.prioritized[0], renamed);
    }
    UpdateAsWrittenDropsLargeEpicIds(s, renamed);
  }
}
