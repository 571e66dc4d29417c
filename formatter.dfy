/**
 * The formatting step of the generate handler: `selected.map(item => ({ type:
 * "text", text: item.question || String(item) }))`. A single record that
 * throws ends the whole `map`, so there is no per-record error item.
 */
module Formatter {
  import opened Wrappers
  import opened JsValue

  /** `item.question`: `None` when the property is absent (`undefined`); reading it from `null` throws. */
  function QuestionOf(item: Value): Result<Option<Value>, Exception>
  {
    match item
    case Null => Err(NullPropertyRead)
    case Obj(m) => Ok(if "question" in m then Some(m["question"]) else None)
    case _ => Ok(None)
  }

  /** `item.question || String(item)`: the text of one output item. */
  function TextOf(item: Value): Result<Value, Exception>
  {
    match QuestionOf(item)
    case Err(e) => Err(e)
    case Ok(q) =>
      if q.Some? && Truthy(q.value) then Ok(q.value)
      else
        match Render(item)
        case Err(e) => Err(e)
        case Ok(s) => Ok(Str(s))
  }

  /** The texts of all selected records, in order; the first record that throws ends the formatting. */
  function Format(selected: seq<Value>): (r: Result<seq<Value>, Exception>)
    ensures r.Ok? ==> |r.value| == |selected|
  {
    if selected == [] then Ok([])
    else
      match TextOf(selected[0])
      case Err(e) => Err(e)
      case Ok(t) =>
        match Format(selected[1..])
        case Err(e) => Err(e)
        case Ok(rest) => Ok([t] + rest)
  }

  /**
   * Formatting succeeds exactly when every record formats, and then item `j`
   * is the text of record `j`: same length, same order.
   */
  lemma {:induction false} FormatIsPointwise(selected: seq<Value>)
    ensures Format(selected).Ok? <==> forall j | 0 <= j < |selected| :: TextOf(selected[j]).Ok?
    ensures Format(selected).Ok? ==>
              |Format(selected).value| == |selected|
              && forall j | 0 <= j < |selected| :: Format(selected).value[j] == TextOf(selected[j]).value
  {
    if selected != [] {
      FormatIsPointwise(selected[1..]);
      if Format(selected).Ok? {
        var out := Format(selected).value;
        forall j | 0 <= j < |selected| ensures out[j] == TextOf(selected[j]).value {
          if j > 0 {
            assert selected[j] == selected[1..][j - 1];
          }
        }
      } else if TextOf(selected[0]).Ok? {
        var j :| 0 <= j < |selected[1..]| && TextOf(selected[1..][j]).Err?;
        assert selected[1..][j] == selected[j + 1];
      }
    }
  }

  /**
   * When formatting fails, the exception is the one thrown by the first record
   * that fails; every record before it formats.
   */
  lemma {:induction false} FormatStopsAtFirstFailure(selected: seq<Value>)
    requires Format(selected).Err?
    ensures exists j | 0 <= j < |selected| ::
              TextOf(selected[j]) == Err(Format(selected).error)
              && forall i | 0 <= i < j :: TextOf(selected[i]).Ok?
  {
    if TextOf(selected[0]).Ok? {
      FormatStopsAtFirstFailure(selected[1..]);
      var j :| 0 <= j < |selected[1..]| && TextOf(selected[1..][j]) == Err(Format(selected[1..]).error)
               && forall i | 0 <= i < j :: TextOf(selected[1..][i]).Ok?;
      assert TextOf(selected[j + 1]) == Err(Format(selected).error);
      forall i | 0 <= i < j + 1 ensures TextOf(selected[i]).Ok? {
        if i > 0 {
          assert selected[i] == selected[1..][i - 1];
        }
      }
    } else {
      assert TextOf(selected[0]) == Err(Format(selected).error);
    }
  }

  /** One `null` record aborts the whole batch. */
  lemma NullRecordAbortsBatch(selected: seq<Value>, j: nat)
    requires j < |selected| && selected[j] == Null
    ensures Format(selected).Err?
  {
    FormatIsPointwise(selected);
  }

  /**
   * A record's text is its truthy `question` value; otherwise the record's
   * string rendering. It fails only on `null` or on a record whose rendering
   * throws.
   */
  lemma TextChoice(item: Value)
    ensures TextOf(item).Err? <==> item == Null || (!HasTruthyQuestion(item) && HidesToString(item))
    ensures HasTruthyQuestion(item) ==> TextOf(item) == Ok(item.fields["question"])
    ensures item != Null && !HasTruthyQuestion(item) && !HidesToString(item) ==>
              TextOf(item) == Ok(Str(Render(item).value))
  {
    RenderThrowsIff(item);
  }

  predicate HasTruthyQuestion(item: Value)
  {
    item.Obj? && "question" in item.fields && Truthy(item.fields["question"])
  }

  /** The record is an object whose `question` is a non-empty string. */
  predicate HasQuestionText(record: Value)
  {
    record.Obj? && "question" in record.fields
    && record.fields["question"].Str? && record.fields["question"].s != ""
  }

  /** Records that all carry a non-empty `question` string format to exactly those strings. */
  lemma QuestionRecordsFormat(selected: seq<Value>)
    requires forall j | 0 <= j < |selected| :: HasQuestionText(selected[j])
    ensures Format(selected).Ok?
    ensures forall j | 0 <= j < |selected| ::
              HasQuestionText(selected[j]) && Format(selected).value[j] == selected[j].fields["question"]
  {
    forall j | 0 <= j < |selected| ensures TextOf(selected[j]) == Ok(selected[j].fields["question"]) {
      TextChoice(selected[j]);
    }
    FormatIsPointwise(selected);
  }
}
