/**
 * `checkForTimeOverlap` and `isTimeOverlap` of `AllTasksRepository`: a task
 * or subtask may not share any stretch of time with another prioritized item.
 */
module Overlap {
  import opened Wrappers
  import opened Model

  /**
   * `isTimeOverlap`: both items are dated and each starts strictly before the
   * other ends, so intervals that only touch do not overlap.
   */
  predicate IsTimeOverlap(a: Task, b: Task)
  {
    match (a.startTime, EndTime(a), b.startTime, EndTime(b))
    case (Some(start1), Some(end1), Some(start2), Some(end2)) => start1 < end2 && start2 < end1
    case _ => false
  }

  /** The filters of the stream in `checkForTimeOverlap`: another id, both dated, and overlapping. */
  predicate Conflicts(existing: Task, candidate: Task)
  {
    existing.id != candidate.id
    && existing.startTime.Some? && candidate.startTime.Some?
    && IsTimeOverlap(existing, candidate)
  }

  /** `findFirst` over the prioritized items: the first that conflicts with `candidate`. */
  function FindOverlap(items: seq<Task>, candidate: Task): (r: Option<Task>)
    ensures r.None? <==> forall i :: 0 <= i < |items| ==> !Conflicts(items[i], candidate)
    ensures r.Some? ==> Conflicts(r.value, candidate)
    ensures r.Some? ==> exists i :: (0 <= i < |items| && items[i] == r.value
                                     && forall j :: 0 <= j < i ==> !Conflicts(items[j], candidate))
  {
    if items == [] then None
    else if Conflicts(items[0], candidate) then Some(items[0])
    else
      var r := FindOverlap(items[1..], candidate);
      assert r.Some? ==> exists i :: (0 < i < |items| && items[i] == r.value
                                      && forall j :: 0 <= j < i ==> !Conflicts(items[j], candidate)) by {
        if r.Some? {
          var k :| (0 <= k < |items[1..]| && items[1..][k] == r.value
                    && forall j :: 0 <= j < k ==> !Conflicts(items[1..][j], candidate));
          assert items[k + 1] == r.value;
          forall j | 0 <= j < k + 1 ensures !Conflicts(items[j], candidate) {
            if j > 0 {
              assert items[j] == items[1..][j - 1];
            }
          }
        }
      }
      r
  }

  /**
   * `checkForTimeOverlap`: `true` where the source throws
   * `TimeOverlapException`. Epics are never checked.
   */
  function CheckForTimeOverlap(items: seq<Task>, candidate: Task): (r: bool)
    ensures r <==> !candidate.IsEpic() && exists i :: 0 <= i < |items| && Conflicts(items[i], candidate)
  {
    !candidate.IsEpic() && FindOverlap(items, candidate).Some?
  }

  /** An undated item, or an epic, is never refused for overlap. */
  lemma UndatedNeverConflicts(items: seq<Task>, candidate: Task)
    requires candidate.startTime.None? || candidate.IsEpic()
    ensures !CheckForTimeOverlap(items, candidate)
  {
  }

  /** An item never conflicts with an item of its own id: an update is not checked against the version it replaces. */
  lemma OwnIdNeverConflicts(items: seq<Task>, candidate: Task)
    requires forall i :: 0 <= i < |items| ==> items[i].id == candidate.id
    ensures !CheckForTimeOverlap(items, candidate)
  {
  }

  /** Overlap between two tasks or subtasks does not depend on the order they are compared in. */
  lemma OverlapSymmetric(a: Task, b: Task)
    ensures IsTimeOverlap(a, b) <==> IsTimeOverlap(b, a)
    ensures Conflicts(a, b) <==> Conflicts(b, a)
  {
  }

  /** One item ending exactly when the other starts is not an overlap. */
  lemma TouchingDoNotOverlap(a: Task, b: Task)
    requires !a.IsEpic() && !b.IsEpic()
    requires a.startTime.Some? && b.startTime.Some? && EndTime(a) == b.startTime
    ensures !IsTimeOverlap(a, b)
  {
  }

  /**
   * Two dated tasks or subtasks overlap exactly when each starts strictly
   * before the other's start plus duration, whatever the sign of the durations.
   */
  lemma OverlapOfIntervals(a: Task, b: Task)
    requires !a.IsEpic() && !b.IsEpic()
    requires a.startTime.Some? && b.startTime.Some?
    ensures IsTimeOverlap(a, b) <==>
      a.startTime.value < b.startTime.value + b.durationInMinutes
      && b.startTime.value < a.startTime.value + a.durationInMinutes
  {
  }

  /** A dated candidate of another id that overlaps a prioritized item is refused. */
  lemma OverlapRefused(items: seq<Task>, candidate: Task, i: nat)
    requires !candidate.IsEpic() && i < |items|
    requires items[i].id != candidate.id && IsTimeOverlap(items[i], candidate)
    ensures CheckForTimeOverlap(items, candidate)
  {
    assert Conflicts(items[i], candidate);
  }
}
