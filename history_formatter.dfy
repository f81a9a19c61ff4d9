/**
 * `HistoryFormatter`: the ids of the viewing history as one comma-joined line,
 * and that line back to a list of ids.
 */
module HistoryFormatter {
  import opened Wrappers
  import Text
  import opened Model

  /** The ids of the items, in order. */
  function Ids(history: seq<Task>): (r: seq<int>)
    ensures |r| == |history|
    ensures forall i :: 0 <= i < |history| ==> r[i] == history[i].id
  {
    seq(|history|, i requires 0 <= i < |history| => history[i].id)
  }

  /** The ids, each printed with `String.valueOf`. */
  function IdTexts(ids: seq<int>): (r: seq<string>)
    ensures |r| == |ids|
    ensures forall i :: 0 <= i < |ids| ==> r[i] == Text.IntToString(ids[i])
  {
    seq(|ids|, i requires 0 <= i < |ids| => Text.IntToString(ids[i]))
  }

  /** `historyToString`: the ids of the history joined with the delimiter, none after the last. */
  function HistoryToString(history: seq<Task>): string
  {
    Text.Join(IdTexts(Ids(history)), Text.Delimiter)
  }

  /** The pieces that are not empty, in order. */
  function NonEmptyPieces(pieces: seq<string>): (r: seq<string>)
    ensures forall i :: 0 <= i < |r| ==> r[i] != ""
    ensures forall s :: s in r <==> s in pieces && s != ""
  {
    if pieces == [] then []
    else if pieces[0] == "" then NonEmptyPieces(pieces[1..])
    else [pieces[0]] + NonEmptyPieces(pieces[1..])
  }

  /** `Integer.parseInt` on every piece; `None` when one of them throws `NumberFormatException`. */
  function ParseEach(pieces: seq<string>): (r: Option<seq<int>>)
    ensures r.Some? <==> forall i :: 0 <= i < |pieces| ==> Text.ParseInt(pieces[i]).Some?
    ensures r.Some? ==> |r.value| == |pieces|
    ensures r.Some? ==> forall i :: 0 <= i < |pieces| ==> Text.ParseInt(pieces[i]) == Some(r.value[i])
  {
    if pieces == [] then Some([])
    else match (Text.ParseInt(pieces[0]), ParseEach(pieces[1..]))
      case (Some(v), Some(rest)) => Some([v] + rest)
      case _ => None
  }

  /**
   * `historyFromString`: split on the delimiter, drop the empty pieces, parse
   * the rest in order. `None` stands for the `NumberFormatException` a
   * non-numeric piece raises.
   */
  function HistoryFromString(value: string): Option<seq<int>>
  {
    ParseEach(NonEmptyPieces(Text.Split(value, Text.Delimiter)))
  }

  lemma {:induction false} NonEmptyPiecesOfNonEmpty(pieces: seq<string>)
    requires forall i :: 0 <= i < |pieces| ==> pieces[i] != ""
    ensures NonEmptyPieces(pieces) == pieces
  {
    if pieces != [] {
      NonEmptyPiecesOfNonEmpty(pieces[1..]);
    }
  }

  /** Reading back what `historyToString` wrote gives the ids of the history, in order. */
  lemma HistoryRoundTrip(history: seq<Task>)
    requires forall i :: 0 <= i < |history| ==> Text.IsInt32(history[i].id)
    ensures HistoryFromString(HistoryToString(history)) == Some(Ids(history))
  {
    var ids := Ids(history);
    var texts := IdTexts(ids);
    if history == [] {
      EmptyLine();
    } else {
      TextsParseBack(ids);
      Text.SplitJoin(texts, Text.Delimiter);
      NonEmptyPiecesOfNonEmpty(texts);
      ParseEachOfTexts(ids);
    }
  }

  /** Every printed 32-bit id is a non-empty piece without the delimiter that parses back to the id. */
  lemma TextsParseBack(ids: seq<int>)
    requires forall i :: 0 <= i < |ids| ==> Text.IsInt32(ids[i])
    ensures forall i :: 0 <= i < |ids| ==> IdTexts(ids)[i] != "" && Text.Delimiter !in IdTexts(ids)[i]
    ensures forall i :: 0 <= i < |ids| ==> Text.ParseInt(IdTexts(ids)[i]) == Some(ids[i])
  {
    forall i | 0 <= i < |ids|
      ensures IdTexts(ids)[i] != "" && Text.Delimiter !in IdTexts(ids)[i]
      ensures Text.ParseInt(IdTexts(ids)[i]) == Some(ids[i])
    {
      Text.IntToStringShape(ids[i]);
      Text.ParseIntRoundTrip(ids[i]);
    }
  }

  lemma ParseEachOfTexts(ids: seq<int>)
    requires forall i :: 0 <= i < |ids| ==> Text.ParseInt(IdTexts(ids)[i]) == Some(ids[i])
    ensures ParseEach(IdTexts(ids)) == Some(ids)
  {
    var r := ParseEach(IdTexts(ids));
    assert r.Some?;
    assert r.value == ids;
  }

  /** The empty history, and only it, encodes to the empty line, which decodes to no ids. */
  lemma EmptyHistory(history: seq<Task>)
    ensures HistoryToString(history) == "" <==> history == []
    ensures HistoryFromString("") == Some([])
  {
    if history != [] {
      var texts := IdTexts(Ids(history));
      Text.IntToStringShape(history[0].id);
      if |texts| >= 2 {
        assert HistoryToString(history) == texts[0] + [Text.Delimiter] + Text.Join(texts[1..], Text.Delimiter);
      }
    }
    EmptyLine();
  }

  lemma EmptyLine()
    ensures HistoryFromString("") == Some([])
  {
    assert Text.Split("", Text.Delimiter) == [""];
    assert NonEmptyPieces([""]) == NonEmptyPieces([]);
  }

  /** The line never ends with the delimiter. */
  lemma NoTrailingDelimiter(history: seq<Task>)
    ensures HistoryToString(history) != "" ==> HistoryToString(history)[|HistoryToString(history)| - 1] != Text.Delimiter
  {
    var texts := IdTexts(Ids(history));
    if history != [] {
      Text.IntToStringShape(history[|history| - 1].id);
      JoinEndsWithLast(texts, Text.Delimiter);
    }
  }

  lemma {:induction false} JoinEndsWithLast(parts: seq<string>, d: char)
    requires |parts| >= 1 && parts[|parts| - 1] != ""
    ensures |Text.Join(parts, d)| >= |parts[|parts| - 1]|
    ensures Text.Join(parts, d)[|Text.Join(parts, d)| - 1] == parts[|parts| - 1][|parts[|parts| - 1]| - 1]
  {
    if |parts| >= 2 {
      JoinEndsWithLast(parts[1..], d);
    }
  }

  /** A non-empty piece that is not a number makes the whole line fail. */
  lemma NonNumericPieceRejected(value: string, i: nat)
    requires i < |Text.Split(value, Text.Delimiter)|
    requires Text.Split(value, Text.Delimiter)[i] != ""
    requires Text.ParseInt(Text.Split(value, Text.Delimiter)[i]).None?
    ensures HistoryFromString(value).None?
  {
    var piece := Text.Split(value, Text.Delimiter)[i];
    var kept := NonEmptyPieces(Text.Split(value, Text.Delimiter));
    assert piece in kept;
    var j :| 0 <= j < |kept| && kept[j] == piece;
  }
}
