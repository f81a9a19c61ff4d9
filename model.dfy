/**
 * The three kinds of work item (`Task`, `Epic`, `Subtask` in `model/`) as one
 * tagged value, with their constructors, `getEndTime`, `equals`/`hashCode` and
 * `toCsvString`. A `LocalDateTime` is a number of minutes; `None` is `null`.
 */
module Model {
  import opened Wrappers
  import Text

  /** `constant.Status`. */
  datatype Status = New | InProgress | Done

  /** `constant.TaskType`: one tag per kind of item. */
  datatype TaskType = TaskTag | SubtaskTag | EpicTag

  /** A point in time, in minutes; `plusMinutes` is `+` and `isBefore` is `<`. */
  type Minutes = int

  /** `Constants.UNASSIGNED_TASK_ID`. */
  const UnassignedTaskId: int := 0
  /** `DEFAULT_TASK_START_TIME`: an item created without a start time is undated. */
  const DefaultTaskStartTime: Option<Minutes> := None
  /** `DEFAULT_NULL_TASK_START_TIME`: the `null` the repository compares start times against. */
  const DefaultNullTaskStartTime: Option<Minutes> := None
  /** `DEFAULT_NULL_TASK_END_TIME`: the end time of an epic with no subtasks. */
  const DefaultNullTaskEndTime: Option<Minutes> := None
  /** `DEFAULT_TASK_DURATION_IN_MINUTES`. */
  const DefaultTaskDurationInMinutes: int := 0
  /** `DEFAULT_NULL_TASK_START_TIME_STRING`: how `toCsvString` prints a `null` time. */
  const NullTimeText: string := "null"

  /**
   * What distinguishes the three classes: an `Epic` adds its ordered list of
   * subtask ids and a stored end time; a `Subtask` adds the id of its epic.
   */
  datatype Kind =
    | Plain
    | Epic(subtaskIdList: seq<int>, endTime: Option<Minutes>)
    | Subtask(epicId: int)

  /** A work item: the fields of `Task`, and the kind-specific ones in `kind`. */
  datatype Task = Task(id: int, name: string, status: Status, description: string,
                       durationInMinutes: int, startTime: Option<Minutes>, kind: Kind)
  {
    predicate IsPlain() { kind.Plain? }
    predicate IsEpic() { kind.Epic? }
    predicate IsSubtask() { kind.Subtask? }
  }

  /** The class of an item, as the repository dispatches on it. */
  function TypeOf(t: Task): TaskType
  {
    match t.kind
    case Plain => TaskTag
    case Epic(_, _) => EpicTag
    case Subtask(_) => SubtaskTag
  }

  /**
   * `getEndTime`: start plus duration for a task or a subtask (`null` when
   * undated); an epic returns its stored end time instead.
   */
  function EndTime(t: Task): Option<Minutes>
  {
    if t.IsEpic() then t.kind.endTime
    else if t.startTime.Some? then Some(t.startTime.value + t.durationInMinutes)
    else None
  }

  /** A task or a subtask ends `durationInMinutes` after it starts, and has an end exactly when it has a start. */
  lemma EndTimeOfScheduled(t: Task)
    requires !t.IsEpic()
    ensures EndTime(t).Some? <==> t.startTime.Some?
    ensures t.startTime.Some? ==> EndTime(t).value - t.startTime.value == t.durationInMinutes
  {
  }

  /** An epic's end time is the stored one, whatever its start and duration; `setEndTime` alone changes it. */
  lemma EndTimeOfEpic(t: Task, start: Option<Minutes>, duration: int, end: Option<Minutes>)
    requires t.IsEpic()
    ensures EndTime(t.(startTime := start, durationInMinutes := duration)) == t.kind.endTime
    ensures EndTime(t.(kind := t.kind.(endTime := end))) == end
  {
  }

  // The short constructors of model/Task.java, model/Epic.java and model/Subtask.java.

  /** `new Task(name, description)`. */
  function NewTask(name: string, description: string): Task
  {
    NewTaskWithStatus(name, description, New)
  }

  /** `new Task(name, description, status)`. */
  function NewTaskWithStatus(name: string, description: string, status: Status): Task
  {
    TaskOf(UnassignedTaskId, name, description, status)
  }

  /** `new Task(id, name, description)`. */
  function NewTaskWithId(id: int, name: string, description: string): Task
  {
    TaskOf(id, name, description, New)
  }

  /** `new Task(id, name, description, status)`. */
  function TaskOf(id: int, name: string, description: string, status: Status): Task
  {
    Task(id, name, status, description, DefaultTaskDurationInMinutes, DefaultTaskStartTime, Plain)
  }

  /** `new Epic(id, name, description, status)`: no subtasks and no end time yet. */
  function EpicOf(id: int, name: string, description: string, status: Status): Task
  {
    Task(id, name, status, description, DefaultTaskDurationInMinutes, DefaultTaskStartTime, Epic([], None))
  }

  /** `new Epic(name, description)`. */
  function NewEpic(name: string, description: string): Task
  {
    NewEpicWithStatus(name, description, New)
  }

  /** `new Epic(name, description, status)`. */
  function NewEpicWithStatus(name: string, description: string, status: Status): Task
  {
    EpicOf(UnassignedTaskId, name, description, status)
  }

  /** `new Subtask(id, name, description, status, epicId, startDate, duration)`. */
  function SubtaskOf(id: int, name: string, description: string, status: Status, epicId: int,
                     startTime: Option<Minutes>, duration: int): Task
  {
    Task(id, name, status, description, duration, startTime, Subtask(epicId))
  }

  /** `new Subtask(name, description, epicId)`. */
  function NewSubtask(name: string, description: string, epicId: int): Task
  {
    NewSubtaskWithStatus(name, description, New, epicId)
  }

  /** `new Subtask(name, description, status, epicId)`. */
  function NewSubtaskWithStatus(name: string, description: string, status: Status, epicId: int): Task
  {
    SubtaskOf(UnassignedTaskId, name, description, status, epicId, DefaultTaskStartTime, DefaultTaskDurationInMinutes)
  }

  /** `new Subtask(name, description, epicId, startDate, duration)`. */
  function NewScheduledSubtask(name: string, description: string, epicId: int,
                               startTime: Option<Minutes>, duration: int): Task
  {
    SubtaskOf(UnassignedTaskId, name, description, New, epicId, startTime, duration)
  }

  /** `new Subtask(id, name, description, status, epicId)`. */
  function SubtaskWithId(id: int, name: string, description: string, status: Status, epicId: int): Task
  {
    SubtaskOf(id, name, description, status, epicId, DefaultTaskStartTime, DefaultTaskDurationInMinutes)
  }

  /**
   * The `Task` constructors that take no id give the unassigned id 0, those
   * that take no status give NEW, and those that take no time give the
   * default start and duration.
   */
  lemma ConstructorDefaults(name: string, description: string, status: Status)
    ensures var t := NewTask(name, description);
      t.IsPlain() && t.id == UnassignedTaskId && t.status == New && t.name == name && t.description == description
      && t.startTime == DefaultTaskStartTime && t.durationInMinutes == DefaultTaskDurationInMinutes
    ensures var t := NewTaskWithStatus(name, description, status);
      t.IsPlain() && t.id == UnassignedTaskId && t.status == status
      && t.startTime == DefaultTaskStartTime && t.durationInMinutes == DefaultTaskDurationInMinutes
  {
  }

  /** A new epic has no subtask ids and no end time yet. */
  lemma EpicConstructorDefaults(name: string, description: string, status: Status)
    ensures var e := NewEpic(name, description);
      e.IsEpic() && e.id == UnassignedTaskId && e.status == New && e.kind.subtaskIdList == [] && e.kind.endTime == None
      && e.startTime == DefaultTaskStartTime && e.durationInMinutes == DefaultTaskDurationInMinutes
    ensures var e := NewEpicWithStatus(name, description, status);
      e.IsEpic() && e.id == UnassignedTaskId && e.status == status && e.kind.subtaskIdList == []
  {
  }

  /** A new subtask keeps the epic id, start and duration it was given. */
  lemma SubtaskConstructorDefaults(name: string, description: string, epicId: int,
                                   start: Option<Minutes>, duration: int)
    ensures var s := NewSubtask(name, description, epicId);
      s.IsSubtask() && s.id == UnassignedTaskId && s.status == New && s.kind.epicId == epicId
      && s.startTime == DefaultTaskStartTime && s.durationInMinutes == DefaultTaskDurationInMinutes
    ensures var s := NewScheduledSubtask(name, description, epicId, start, duration);
      s.IsSubtask() && s.id == UnassignedTaskId && s.status == New && s.kind.epicId == epicId
      && s.startTime == start && s.durationInMinutes == duration
  {
  }

  /**
   * `Task.equals` (inherited by `Epic` and `Subtask`): same class, id, name,
   * status and description. Times, an epic's subtask list and a subtask's
   * epic id take no part.
   */
  predicate TaskEquals(a: Task, b: Task)
  {
    TypeOf(a) == TypeOf(b) && a.id == b.id && a.name == b.name && a.status == b.status
    && a.description == b.description
  }

  /** Java `int` arithmetic: the value modulo 2^32, in the signed range. */
  function Wrap32(x: int): (r: int)
    ensures Text.IsInt32(r)
    ensures (r - x) % 0x1_0000_0000 == 0
  {
    (x + 0x8000_0000) % 0x1_0000_0000 - 0x8000_0000
  }

  /** `String.hashCode`: `31 * h + c` over the characters, in `int` arithmetic. */
  function StringHash(s: string): int
  {
    if s == [] then 0 else Wrap32(31 * StringHash(s[..|s| - 1]) + s[|s| - 1] as int)
  }

  /**
   * `Task.hashCode`: `Objects.hash(id, name, status, description)`. An enum's
   * hash code is its identity hash, which no source text fixes, so it is a
   * parameter.
   */
  function HashCode(t: Task, statusHash: Status -> int): int
  {
    var h := Wrap32(31 * 1 + t.id);
    var h := Wrap32(31 * h + StringHash(t.name));
    var h := Wrap32(31 * h + statusHash(t.status));
    Wrap32(31 * h + StringHash(t.description))
  }

  /** `equals` ignores the times, an epic's subtask list and end time, and a subtask's epic. */
  lemma EqualsIgnoresSchedule(t: Task, start: Option<Minutes>, duration: int)
    ensures TaskEquals(t, t.(startTime := start, durationInMinutes := duration))
    ensures t.IsEpic() ==> forall ids: seq<int>, e: Option<Minutes> ::
      TaskEquals(t, t.(kind := Epic(ids, e)))
    ensures t.IsSubtask() ==> forall eid: int :: TaskEquals(t, t.(kind := Subtask(eid)))
  {
  }

  /** Equal items have equal hash codes, and `equals` is an equivalence. */
  lemma EqualsAgreesWithHashCode(a: Task, b: Task, c: Task, statusHash: Status -> int)
    ensures TaskEquals(a, a)
    ensures TaskEquals(a, b) ==> TaskEquals(b, a)
    ensures TaskEquals(a, b) && TaskEquals(b, c) ==> TaskEquals(a, c)
    ensures TaskEquals(a, b) ==> HashCode(a, statusHash) == HashCode(b, statusHash)
  {
  }

  /** `getClass().getSimpleName().toUpperCase()`, which is also the `TaskType` constant's name. */
  function TypeName(ty: TaskType): string
  {
    match ty
    case TaskTag => "TASK"
    case SubtaskTag => "SUBTASK"
    case EpicTag => "EPIC"
  }

  /** `TaskType.valueOf`: `None` stands for `IllegalArgumentException`. */
  function TypeFromName(s: string): (r: Option<TaskType>)
    ensures r.Some? ==> TypeName(r.value) == s
  {
    if s == "TASK" then Some(TaskTag)
    else if s == "SUBTASK" then Some(SubtaskTag)
    else if s == "EPIC" then Some(EpicTag)
    else None
  }

  /** The name of a `Status` constant, as `toString` prints it. */
  function StatusName(st: Status): string
  {
    match st
    case New => "NEW"
    case InProgress => "IN_PROGRESS"
    case Done => "DONE"
  }

  /** `Status.valueOf`: `None` stands for `IllegalArgumentException`. */
  function StatusFromName(s: string): (r: Option<Status>)
    ensures r.Some? ==> StatusName(r.value) == s
  {
    if s == "NEW" then Some(New)
    else if s == "IN_PROGRESS" then Some(InProgress)
    else if s == "DONE" then Some(Done)
    else None
  }

  /** `TypeFromName` and `StatusFromName` read back exactly what `TypeName` and `StatusName` print. */
  lemma NamesRoundTrip(ty: TaskType, st: Status)
    ensures TypeFromName(TypeName(ty)) == Some(ty)
    ensures StatusFromName(StatusName(st)) == Some(st)
    ensures Text.ToUpperCase(StatusName(st)) == StatusName(st)
  {
    Text.ToUpperCaseOfUpper(StatusName(st));
  }

  /** `LocalDateTime.toString`, for a time kept in minutes: the minute count in decimal. */
  function TimeToString(m: Minutes): string
  {
    Text.IntToString(m)
  }

  /** `LocalDateTime.parse`: `None` stands for `DateTimeParseException`. */
  function ParseTime(s: string): Option<Minutes>
  {
    Text.ParseDecimal(s)
  }

  /** How `StringBuilder.append` prints a time that may be `null`. */
  function OptionalTimeText(t: Option<Minutes>): string
  {
    if t.Some? then TimeToString(t.value) else NullTimeText
  }

  /** The first eight fields of a CSV line: id, type, name, status, description, start, duration, end. */
  function CsvFields(t: Task): seq<string>
  {
    [Text.IntToString(t.id), TypeName(TypeOf(t)), t.name, StatusName(t.status), t.description,
     OptionalTimeText(t.startTime), Text.IntToString(t.durationInMinutes), OptionalTimeText(EndTime(t))]
  }

  /**
   * `toCsvString`: every field followed by the delimiter; a subtask then
   * appends its epic id, which makes it a ninth field.
   */
  function ToCsvString(t: Task): string
  {
    Text.Join(CsvFields(t) + [if t.IsSubtask() then Text.IntToString(t.kind.epicId) else ""], Text.Delimiter)
  }

  /** A time prints as something other than `"null"`, with no delimiter and not empty. */
  lemma TimeTextShape(t: Option<Minutes>)
    ensures OptionalTimeText(t) != []
    ensures Text.Delimiter !in OptionalTimeText(t)
    ensures t.Some? ==> OptionalTimeText(t) != NullTimeText
  {
    if t.Some? {
      var s := TimeToString(t.value);
      Text.IntToStringShape(t.value);
      assert s[0] == '-' || Text.IsDigit(s[0]);
    }
  }
}
