/**
 * `TaskFactoryLoadFromCsvFile.createTask`: one comma-separated line back into
 * an item. The line is cut with a plain `split`, with no quoting, and its
 * fields are read by fixed position.
 */
module CsvFactory {
  import opened Wrappers
  import Text
  import opened Model

  const MinimumFieldsCount: nat := 8
  const IdIndex: nat := 0
  const TypeIndex: nat := 1
  const NameIndex: nat := 2
  const StatusIndex: nat := 3
  const DescriptionIndex: nat := 4
  const StartTimeIndex: nat := 5
  const DurationIndex: nat := 6
  const EndTimeIndex: nat := 7
  const EpicIdIndex: nat := 8

  /** Why a line could not be read back. */
  datatype LoadError =
    | InsufficientFields   // ManagerSaveException: fewer than eight fields
    | InvalidNumberFormat  // ManagerSaveException wrapping a NumberFormatException
    | InvalidTypeOrStatus  // ManagerSaveException wrapping an IllegalArgumentException
    | UnparsableStartTime  // DateTimeParseException, which the method does not catch
    | MissingEpicIdField   // ArrayIndexOutOfBoundsException: a SUBTASK line with no ninth field

  /** The start field: the `null` text gives the default start, anything else is parsed. */
  function StartFromText(text: string): (r: Result<Option<Minutes>, LoadError>)
    ensures text == NullTimeText ==> r == Success(DefaultTaskStartTime)
    ensures text != NullTimeText ==> (r.Success? <==> ParseTime(text).Some?)
    ensures text != NullTimeText && r.Success? ==> r.value == ParseTime(text)
  {
    if text == NullTimeText then Success(DefaultTaskStartTime)
    else match ParseTime(text)
      case Some(m) => Success(Some(m))
      case None => Failure(UnparsableStartTime)
  }

  /**
   * The item the fields of a split line describe, checking them in the order
   * the source reads them: id, type, status, start, duration, then a
   * subtask's epic id. The end-time field is never read.
   */
  function FromFields(f: seq<string>): (r: Result<Task, LoadError>)
    ensures |f| < MinimumFieldsCount <==> r == Failure(InsufficientFields)
    ensures r.Success? ==>
      && Text.ParseInt(f[IdIndex]) == Some(r.value.id)
      && f[TypeIndex] == TypeName(TypeOf(r.value))
      && r.value.name == f[NameIndex]
      && StatusFromName(Text.ToUpperCase(f[StatusIndex])) == Some(r.value.status)
      && r.value.description == f[DescriptionIndex]
    ensures r.Success? && !r.value.IsEpic() ==>
      && StartFromText(f[StartTimeIndex]) == Success(r.value.startTime)
      && Text.ParseInt(f[DurationIndex]) == Some(r.value.durationInMinutes)
    ensures r.Success? && r.value.IsSubtask() ==>
      |f| > EpicIdIndex && Text.ParseInt(f[EpicIdIndex]) == Some(r.value.kind.epicId)
    ensures r.Success? && r.value.IsEpic() ==>
      r.value == EpicOf(r.value.id, r.value.name, r.value.description, r.value.status)
  {
    if |f| < MinimumFieldsCount then Failure(InsufficientFields)
    else match Text.ParseInt(f[IdIndex])
      case None => Failure(InvalidNumberFormat)
      case Some(id) =>
        match TypeFromName(f[TypeIndex])
        case None => Failure(InvalidTypeOrStatus)
        case Some(ty) =>
          match StatusFromName(Text.ToUpperCase(f[StatusIndex]))
          case None => Failure(InvalidTypeOrStatus)
          case Some(status) =>
            match StartFromText(f[StartTimeIndex])
            case Failure(e) => Failure(e)
            case Success(start) =>
              match Text.ParseInt(f[DurationIndex])
              case None => Failure(InvalidNumberFormat)
              case Some(duration) =>
                var name, description := f[NameIndex], f[DescriptionIndex];
                match ty
                case TaskTag => Success(Task(id, name, status, description, duration, start, Plain))
                case SubtaskTag =>
                  if |f| <= EpicIdIndex then Failure(MissingEpicIdField)
                  else (match Text.ParseInt(f[EpicIdIndex])
                    case None => Failure(InvalidNumberFormat)
                    case Some(epicId) => Success(SubtaskOf(id, name, description, status, epicId, start, duration)))
                case EpicTag => Success(EpicOf(id, name, description, status))
  }

  /**
   * The first field that cannot be read decides the error, in reading order:
   * a bad id or duration is a number-format error, a bad type or status an
   * argument error, a bad start a parse error; a SUBTASK line without a
   * ninth field fails on the index, and one with a bad ninth field on the
   * number. A line that passes every check is read.
   */
  lemma FromFieldsErrorOrder(f: seq<string>)
    requires |f| >= MinimumFieldsCount
    ensures Text.ParseInt(f[IdIndex]).None? ==> FromFields(f) == Failure(InvalidNumberFormat)
    ensures (Text.ParseInt(f[IdIndex]).Some? && TypeFromName(f[TypeIndex]).None?) ==>
      FromFields(f) == Failure(InvalidTypeOrStatus)
    ensures (&& Text.ParseInt(f[IdIndex]).Some? && TypeFromName(f[TypeIndex]).Some?
             && StatusFromName(Text.ToUpperCase(f[StatusIndex])).None?) ==>
      FromFields(f) == Failure(InvalidTypeOrStatus)
    ensures (&& Text.ParseInt(f[IdIndex]).Some? && TypeFromName(f[TypeIndex]).Some?
             && StatusFromName(Text.ToUpperCase(f[StatusIndex])).Some?
             && StartFromText(f[StartTimeIndex]).Failure?) ==>
      FromFields(f) == Failure(UnparsableStartTime)
    ensures (&& Text.ParseInt(f[IdIndex]).Some? && TypeFromName(f[TypeIndex]).Some?
             && StatusFromName(Text.ToUpperCase(f[StatusIndex])).Some?
             && StartFromText(f[StartTimeIndex]).Success? && Text.ParseInt(f[DurationIndex]).None?) ==>
      FromFields(f) == Failure(InvalidNumberFormat)
    ensures (&& Text.ParseInt(f[IdIndex]).Some? && f[TypeIndex] == TypeName(SubtaskTag)
             && StatusFromName(Text.ToUpperCase(f[StatusIndex])).Some?
             && StartFromText(f[StartTimeIndex]).Success? && Text.ParseInt(f[DurationIndex]).Some?) ==>
      && (|f| <= EpicIdIndex ==> FromFields(f) == Failure(MissingEpicIdField))
      && (|f| > EpicIdIndex ==> (FromFields(f).Failure? <==> Text.ParseInt(f[EpicIdIndex]).None?))
      && (|f| > EpicIdIndex && FromFields(f).Failure? ==> FromFields(f) == Failure(InvalidNumberFormat))
    ensures (&& Text.ParseInt(f[IdIndex]).Some?
             && (f[TypeIndex] == TypeName(TaskTag) || f[TypeIndex] == TypeName(EpicTag))
             && StatusFromName(Text.ToUpperCase(f[StatusIndex])).Some?
             && StartFromText(f[StartTimeIndex]).Success? && Text.ParseInt(f[DurationIndex]).Some?) ==>
      FromFields(f).Success?
  {
  }

  /** `createTask(csvString)`: split on the delimiter, then read the fields. */
  function CreateTask(csv: string): Result<Task, LoadError>
  {
    FromFields(Text.Split(csv, Text.Delimiter))
  }

  /** The eighth field (the end time) has no effect on the result. */
  lemma EndTimeFieldIgnored(f: seq<string>, text: string)
    requires |f| > EndTimeIndex
    ensures FromFields(f[EndTimeIndex := text]) == FromFields(f)
  {
  }

  /** An item whose text fields can be written and read back: no delimiter inside, numbers within `int`. */
  predicate Writable(t: Task)
  {
    && Text.Delimiter !in t.name && Text.Delimiter !in t.description
    && Text.IsInt32(t.id) && Text.IsInt32(t.durationInMinutes)
    && (t.IsSubtask() ==> Text.IsInt32(t.kind.epicId))
  }

  /** What reading a line back gives: every stored field of a task or subtask; an epic's id, name, description and status. */
  function ReadBack(t: Task): Task
  {
    if t.IsEpic() then EpicOf(t.id, t.name, t.description, t.status) else t
  }

  lemma FieldsOfCsv(t: Task)
    requires Writable(t)
    ensures forall i :: 0 <= i < |CsvFields(t)| ==> Text.Delimiter !in CsvFields(t)[i]
    ensures CsvFields(t)[EndTimeIndex] != ""
  {
    TimeTextShape(t.startTime);
    TimeTextShape(EndTime(t));
    Text.IntToStringShape(t.id);
    Text.IntToStringShape(t.durationInMinutes);
  }

  /** The fields of a line written by `ToCsvString`: the eight fields, and a subtask's epic id. */
  lemma SplitOfCsv(t: Task)
    requires Writable(t)
    ensures Text.Split(ToCsvString(t), Text.Delimiter)
         == CsvFields(t) + (if t.IsSubtask() then [Text.IntToString(t.kind.epicId)] else [])
  {
    FieldsOfCsv(t);
    var fields := CsvFields(t);
    if t.IsSubtask() {
      var parts := fields + [Text.IntToString(t.kind.epicId)];
      Text.IntToStringShape(t.kind.epicId);
      Text.SplitJoin(parts, Text.Delimiter);
    } else {
      Text.SplitJoinTrailing(fields, Text.Delimiter);
    }
  }

  /**
   * Reading back a line that `toCsvString` wrote restores the item: all its
   * stored fields for a task or a subtask, only id, name, description and
   * status for an epic, whose times and subtask list are dropped.
   */
  lemma CreateTaskRoundTrip(t: Task)
    requires Writable(t)
    ensures CreateTask(ToCsvString(t)) == Success(ReadBack(t))
  {
    SplitOfCsv(t);
    FromWrittenFields(t, Text.Split(ToCsvString(t), Text.Delimiter));
  }

  /** A written start field reads back as the start it was written from. */
  lemma StartRoundTrip(start: Option<Minutes>)
    ensures StartFromText(OptionalTimeText(start)) == Success(start)
  {
    TimeTextShape(start);
    if start.Some? {
      Text.ParseDecimalRoundTrip(start.value);
    }
  }

  /** The fields `toCsvString` writes read back as the item. */
  lemma FromWrittenFields(t: Task, f: seq<string>)
    requires Writable(t)
    requires f == CsvFields(t) + (if t.IsSubtask() then [Text.IntToString(t.kind.epicId)] else [])
    ensures FromFields(f) == Success(ReadBack(t))
  {
    assert |f| >= MinimumFieldsCount;
    assert f[IdIndex] == Text.IntToString(t.id) && f[TypeIndex] == TypeName(TypeOf(t));
    assert f[StatusIndex] == StatusName(t.status) && f[StartTimeIndex] == OptionalTimeText(t.startTime);
    assert f[DurationIndex] == Text.IntToString(t.durationInMinutes);
    assert f[NameIndex] == t.name && f[DescriptionIndex] == t.description;
    Text.ParseIntRoundTrip(t.id);
    Text.ParseIntRoundTrip(t.durationInMinutes);
    NamesRoundTrip(TypeOf(t), t.status);
    StartRoundTrip(t.startTime);
    if t.IsSubtask() {
      assert f[EpicIdIndex] == Text.IntToString(t.kind.epicId);
      Text.ParseIntRoundTrip(t.kind.epicId);
    }
  }
}
