/**
 * How an epic's derived fields follow from its subtasks
 * (`calculateNewEpicStatus`, `calculateAndSetNewEpicTimeProperties`,
 * `getMinStartTime`, `getMaxEndTime` in `AllTasksRepository`), as functions
 * of the epic's subtask ids and the subtask map.
 */
module Rollup {
  import opened Wrappers
  import opened Model

  /**
   * The status an epic takes from the statuses of its subtasks: NEW when it
   * has none; IN_PROGRESS when there is both a NEW and a DONE one; otherwise
   * NEW if there is a NEW one, DONE if there is a DONE one, and IN_PROGRESS
   * when every one is IN_PROGRESS.
   */
  function EpicStatusOf(statuses: seq<Status>): Status
  {
    if statuses == [] then New
    else if New in statuses && Done in statuses then InProgress
    else if New in statuses then New
    else if Done in statuses then Done
    else InProgress
  }

  /** The statuses of the listed subtasks, in list order; ids with no subtask are skipped. */
  function StatusesOf(ids: seq<int>, subtasks: map<int, Task>): (r: seq<Status>)
    ensures |r| <= |ids|
  {
    if ids == [] then []
    else
      var rest := StatusesOf(ids[..|ids| - 1], subtasks);
      var id := ids[|ids| - 1];
      if id in subtasks then rest + [subtasks[id].status] else rest
  }

  /** `getMinStartTime`: the earlier of two starts, where `null` never wins over a date. */
  function MinStartTime(current: Option<Minutes>, next: Option<Minutes>): (r: Option<Minutes>)
    ensures r == current || r == next
    ensures r.None? <==> current.None? && next.None?
    ensures r.Some? && current.Some? ==> r.value <= current.value
    ensures r.Some? && next.Some? ==> r.value <= next.value
  {
    if current == DefaultNullTaskStartTime || (next != DefaultNullTaskStartTime && next.value < current.value) then next
    else current
  }

  /** `getMaxEndTime`: the later of two ends, where `null` never wins over a date. */
  function MaxEndTime(current: Option<Minutes>, next: Option<Minutes>): (r: Option<Minutes>)
    ensures r == current || r == next
    ensures r.None? <==> current.None? && next.None?
    ensures r.Some? && current.Some? ==> r.value >= current.value
    ensures r.Some? && next.Some? ==> r.value >= next.value
  {
    if current == DefaultNullTaskStartTime || (next != DefaultNullTaskStartTime && next.value > current.value) then next
    else current
  }

  /** The start `calculateAndSetNewEpicTimeProperties` accumulates over the listed subtasks. */
  function StartOf(ids: seq<int>, subtasks: map<int, Task>): Option<Minutes>
  {
    if ids == [] then DefaultNullTaskStartTime
    else
      var earlier := StartOf(ids[..|ids| - 1], subtasks);
      var id := ids[|ids| - 1];
      if id in subtasks then MinStartTime(earlier, subtasks[id].startTime) else earlier
  }

  /** The end `calculateAndSetNewEpicTimeProperties` accumulates over the listed subtasks. */
  function EndOf(ids: seq<int>, subtasks: map<int, Task>): Option<Minutes>
  {
    if ids == [] then DefaultNullTaskEndTime
    else
      var earlier := EndOf(ids[..|ids| - 1], subtasks);
      var id := ids[|ids| - 1];
      if id in subtasks then MaxEndTime(earlier, EndTime(subtasks[id])) else earlier
  }

  /** The total duration `calculateAndSetNewEpicTimeProperties` accumulates over the listed subtasks. */
  function DurationOf(ids: seq<int>, subtasks: map<int, Task>): int
  {
    if ids == [] then 0
    else
      var earlier := DurationOf(ids[..|ids| - 1], subtasks);
      var id := ids[|ids| - 1];
      if id in subtasks then earlier + subtasks[id].durationInMinutes else earlier
  }

  /** `setNewTimeProperties`: start, duration and stored end time of an epic. */
  function SetTimeProperties(epic: Task, start: Option<Minutes>, duration: int, end: Option<Minutes>): (r: Task)
    requires epic.IsEpic()
    ensures r.IsEpic() && r.startTime == start && r.durationInMinutes == duration && EndTime(r) == end
    ensures r.(startTime := epic.startTime, durationInMinutes := epic.durationInMinutes, kind := epic.kind) == epic
    ensures r.kind.subtaskIdList == epic.kind.subtaskIdList
  {
    epic.(startTime := start, durationInMinutes := duration, kind := epic.kind.(endTime := end))
  }

  /**
   * `calculateAndSetNewEpicTimeProperties`: with no subtask ids, the default
   * start and duration and no end; otherwise the rollup over the listed
   * subtasks.
   */
  function EpicTimes(epic: Task, subtasks: map<int, Task>): Task
    requires epic.IsEpic()
  {
    var ids := epic.kind.subtaskIdList;
    if ids == [] then
      SetTimeProperties(epic, DefaultNullTaskStartTime, DefaultTaskDurationInMinutes, DefaultNullTaskEndTime)
    else
      SetTimeProperties(epic, StartOf(ids, subtasks), DurationOf(ids, subtasks), EndOf(ids, subtasks))
  }

  /**
   * `changeEpicStatusAndTimeProperties`: the epic with its status and its time
   * window recomputed from its subtasks. Nothing else about it changes.
   */
  function Recalculate(epic: Task, subtasks: map<int, Task>): (r: Task)
    requires epic.IsEpic()
    ensures r.IsEpic() && r.id == epic.id && r.name == epic.name && r.description == epic.description
    ensures r.kind.subtaskIdList == epic.kind.subtaskIdList
  {
    EpicTimes(epic.(status := EpicStatusOf(StatusesOf(epic.kind.subtaskIdList, subtasks))), subtasks)
  }

  /** The derived fields of an epic agree with its subtasks. */
  predicate RollupFresh(epic: Task, subtasks: map<int, Task>)
    requires epic.IsEpic()
  {
    Recalculate(epic, subtasks) == epic
  }

  // Properties of the status rollup.

  /**
   * The three outcomes of the status rollup, each in both directions; in
   * particular a NEW and an IN_PROGRESS subtask give a NEW epic.
   */
  lemma EpicStatusCases(statuses: seq<Status>)
    ensures EpicStatusOf(statuses) == New <==> statuses == [] || (New in statuses && Done !in statuses)
    ensures EpicStatusOf(statuses) == Done <==> Done in statuses && New !in statuses
    ensures EpicStatusOf(statuses) == InProgress <==>
      statuses != [] && ((New in statuses && Done in statuses) || forall i :: 0 <= i < |statuses| ==> statuses[i] == InProgress)
  {
    if statuses != [] && New !in statuses && Done !in statuses {
      forall i | 0 <= i < |statuses| ensures statuses[i] == InProgress {
        assert statuses[i] in statuses;
      }
    }
  }

  /** When every subtask has the same status, the epic takes it. */
  lemma UniformStatus(statuses: seq<Status>, st: Status)
    requires statuses != []
    requires forall i :: 0 <= i < |statuses| ==> statuses[i] == st
    ensures EpicStatusOf(statuses) == st
  {
    assert statuses[0] in statuses;
    EpicStatusCases(statuses);
  }

  /** The status rollup depends only on which statuses occur, not on their order or count. */
  lemma StatusRollupIgnoresOrder(a: seq<Status>, b: seq<Status>)
    requires forall st :: st in a <==> st in b
    ensures EpicStatusOf(a) == EpicStatusOf(b)
  {
    if a != [] {
      assert a[0] in b;
    }
    if b != [] {
      assert b[0] in a;
    }
  }

  /** With every listed id resolving, the statuses are exactly those of the listed subtasks, in order. */
  lemma {:induction false} StatusesOfResolved(ids: seq<int>, subtasks: map<int, Task>)
    requires forall i :: 0 <= i < |ids| ==> ids[i] in subtasks
    ensures |StatusesOf(ids, subtasks)| == |ids|
    ensures forall i :: 0 <= i < |ids| ==> StatusesOf(ids, subtasks)[i] == subtasks[ids[i]].status
  {
    if ids != [] {
      var init := ids[..|ids| - 1];
      StatusesOfResolved(init, subtasks);
    }
  }

  // Properties of the time rollup.

  /**
   * The rolled-up start is the earliest start among the listed subtasks that
   * have one, and `null` when none has.
   */
  lemma {:induction false} StartOfIsEarliest(ids: seq<int>, subtasks: map<int, Task>)
    ensures StartOf(ids, subtasks).None? <==>
      forall i :: 0 <= i < |ids| && ids[i] in subtasks ==> subtasks[ids[i]].startTime.None?
    ensures StartOf(ids, subtasks).Some? ==>
      exists i :: 0 <= i < |ids| && ids[i] in subtasks && subtasks[ids[i]].startTime == StartOf(ids, subtasks)
    ensures forall i :: 0 <= i < |ids| && ids[i] in subtasks && subtasks[ids[i]].startTime.Some? ==>
      StartOf(ids, subtasks).Some? && StartOf(ids, subtasks).value <= subtasks[ids[i]].startTime.value
  {
    if ids != [] {
      var init := ids[..|ids| - 1];
      StartOfIsEarliest(init, subtasks);
      assert forall i :: 0 <= i < |init| ==> init[i] == ids[i];
      var n := |ids| - 1;
      if StartOf(ids, subtasks).Some? && ids[n] in subtasks && StartOf(ids, subtasks) == subtasks[ids[n]].startTime {
        assert 0 <= n < |ids|;
      }
    }
  }

  /**
   * The rolled-up end is the latest end among the listed subtasks that have
   * one, and `null` when none has.
   */
  lemma {:induction false} EndOfIsLatest(ids: seq<int>, subtasks: map<int, Task>)
    ensures EndOf(ids, subtasks).None? <==>
      forall i :: 0 <= i < |ids| && ids[i] in subtasks ==> EndTime(subtasks[ids[i]]).None?
    ensures EndOf(ids, subtasks).Some? ==>
      exists i :: 0 <= i < |ids| && ids[i] in subtasks && EndTime(subtasks[ids[i]]) == EndOf(ids, subtasks)
    ensures forall i :: 0 <= i < |ids| && ids[i] in subtasks && EndTime(subtasks[ids[i]]).Some? ==>
      EndOf(ids, subtasks).Some? && EndOf(ids, subtasks).value >= EndTime(subtasks[ids[i]]).value
  {
    if ids != [] {
      var init := ids[..|ids| - 1];
      EndOfIsLatest(init, subtasks);
      assert forall i :: 0 <= i < |init| ==> init[i] == ids[i];
      var n := |ids| - 1;
      if EndOf(ids, subtasks).Some? && ids[n] in subtasks && EndOf(ids, subtasks) == EndTime(subtasks[ids[n]]) {
        assert 0 <= n < |ids|;
      }
    }
  }

  /** The total duration adds up over consecutive parts of the list; ids with no subtask add nothing. */
  lemma {:induction false} DurationOfAppend(a: seq<int>, b: seq<int>, subtasks: map<int, Task>)
    ensures DurationOf(a + b, subtasks) == DurationOf(a, subtasks) + DurationOf(b, subtasks)
  {
    if b != [] {
      var init := b[..|b| - 1];
      DurationOfAppend(a, init, subtasks);
      assert (a + b)[..|a + b| - 1] == a + init;
    } else {
      assert a + b == a;
    }
  }

  /** The total duration of a single listed id: the subtask's duration, or nothing when it is missing. */
  lemma DurationOfOne(id: int, subtasks: map<int, Task>)
    ensures DurationOf([id], subtasks) == if id in subtasks then subtasks[id].durationInMinutes else 0
  {
    assert [id][..0] == [];
  }

  // Properties of the whole recomputation.

  /** An epic whose list is empty gets status NEW, the default start and duration, and no end. */
  lemma RecalculateEmpty(epic: Task, subtasks: map<int, Task>)
    requires epic.IsEpic() && epic.kind.subtaskIdList == []
    ensures var r := Recalculate(epic, subtasks);
      r.status == New && r.startTime == DefaultNullTaskStartTime
      && r.durationInMinutes == DefaultTaskDurationInMinutes && EndTime(r) == DefaultNullTaskEndTime
  {
  }

  /** An epic with subtasks takes their status rollup, earliest start, latest end and total duration. */
  lemma RecalculateNonEmpty(epic: Task, subtasks: map<int, Task>)
    requires epic.IsEpic() && epic.kind.subtaskIdList != []
    ensures var ids := epic.kind.subtaskIdList; var r := Recalculate(epic, subtasks);
      r.status == EpicStatusOf(StatusesOf(ids, subtasks)) && r.startTime == StartOf(ids, subtasks)
      && r.durationInMinutes == DurationOf(ids, subtasks) && EndTime(r) == EndOf(ids, subtasks)
  {
  }

  /** Recomputing twice gives what recomputing once gives. */
  lemma RecalculateIdempotent(epic: Task, subtasks: map<int, Task>)
    requires epic.IsEpic()
    ensures RollupFresh(Recalculate(epic, subtasks), subtasks)
  {
  }

  /** Renaming an epic or changing its description does not affect its rollup. */
  lemma RecalculateIgnoresText(epic: Task, name: string, description: string, subtasks: map<int, Task>)
    requires epic.IsEpic()
    ensures Recalculate(epic.(name := name, description := description), subtasks)
         == Recalculate(epic, subtasks).(name := name, description := description)
    ensures RollupFresh(epic, subtasks) ==> RollupFresh(epic.(name := name, description := description), subtasks)
  {
  }

  /** Two subtask maps agree on the listed ids: the same ids are present, with the same values. */
  predicate AgreeOn(ids: seq<int>, a: map<int, Task>, b: map<int, Task>)
  {
    forall i :: 0 <= i < |ids| ==> (ids[i] in a <==> ids[i] in b) && (ids[i] in a ==> a[ids[i]] == b[ids[i]])
  }

  /** The rollups read only the listed subtasks. */
  lemma {:induction false} RollupsReadOnlyListed(ids: seq<int>, a: map<int, Task>, b: map<int, Task>)
    requires AgreeOn(ids, a, b)
    ensures StatusesOf(ids, a) == StatusesOf(ids, b)
    ensures StartOf(ids, a) == StartOf(ids, b)
    ensures EndOf(ids, a) == EndOf(ids, b)
    ensures DurationOf(ids, a) == DurationOf(ids, b)
  {
    if ids != [] {
      var init := ids[..|ids| - 1];
      assert AgreeOn(init, a, b) by {
        assert forall i :: 0 <= i < |init| ==> init[i] == ids[i];
      }
      RollupsReadOnlyListed(init, a, b);
    }
  }

  /** Changes to subtasks an epic does not list leave its recomputation, and its freshness, unchanged. */
  lemma RecalculateReadsOnlyListed(epic: Task, a: map<int, Task>, b: map<int, Task>)
    requires epic.IsEpic() && AgreeOn(epic.kind.subtaskIdList, a, b)
    ensures Recalculate(epic, a) == Recalculate(epic, b)
    ensures RollupFresh(epic, a) <==> RollupFresh(epic, b)
  {
    RollupsReadOnlyListed(epic.kind.subtaskIdList, a, b);
  }
}
