/**
 * `bulk_upload_imams`: every row of the uploaded sheet is inserted as an
 * Imam after its `name` column is dropped; the counters and the error list
 * record what happened to each row, numbered as spreadsheet lines (the
 * header is line 1), and a failing row never stops the rows after it.
 */
module ImamBulk {
  import opened Wrappers
  import opened JsonValue
  import opened Envelope
  import ImamRequests

  /** One data row of the sheet, column name to cell. */
  type Row = map<string, Json>

  /** The sheet as the parser delivers it. */
  datatype Sheet = Unreadable(reason: string) | Rows(rows: seq<Row>)

  /** The request's `file` part: absent, or a named upload. */
  datatype FileField = NoFile | Uploaded(filename: string, sheet: Sheet)

  /** An entry of the `errors` list. */
  datatype RowError = RowError(row: int, error: string)

  /** The running state of the loop: the two counters, the errors and the documents inserted. */
  datatype Tally = Tally(created: nat, failed: nat, errors: seq<RowError>, inserted: seq<map<string, Json>>)

  /**
   * The document inserted for a row: the row without its `name` column,
   * under doctype Imam unless the row has a `doctype` column of its own.
   */
  function RowDoc(row: Row): (doc: map<string, Json>)
    ensures doc.Keys == (row.Keys - {"name"}) + {"doctype"}
    ensures forall k :: k in row && k != "name" ==> doc[k] == row[k]
    ensures "doctype" !in row ==> doc["doctype"] == JStr("Imam")
  {
    ImamRequests.NewImamDoc(row - {"name"})
  }

  /**
   * The loop over `rows`, whose first row sits at position `first` of the
   * sheet; `failure(idx)` is the exception the insert of the row at
   * position `idx` raises, if any.
   */
  function Run(rows: seq<Row>, first: nat, failure: nat -> Option<string>): (t: Tally)
    ensures t.created + t.failed == |rows|
    ensures |t.errors| == t.failed && |t.inserted| == t.created
    decreases |rows|
  {
    if rows == [] then Tally(0, 0, [], [])
    else
      var last := |rows| - 1;
      Step(Run(rows[..last], first, failure), rows[last], first + last, failure(first + last))
  }

  /** One iteration: the row at position `pos` is inserted, or its failure is counted and listed. */
  function Step(t: Tally, row: Row, pos: nat, outcome: Option<string>): (r: Tally)
    ensures r.created + r.failed == t.created + t.failed + 1
    ensures |r.errors| - r.failed == |t.errors| - t.failed && |r.inserted| - r.created == |t.inserted| - t.created
  {
    match outcome
    case None => Tally(t.created + 1, t.failed, t.errors, t.inserted + [RowDoc(row)])
    case Some(e) => Tally(t.created, t.failed + 1, t.errors + [RowError(pos + 2, e)], t.inserted)
  }

  predicate RowsWithin(errors: seq<RowError>, lo: int, hi: int)
  {
    forall k :: 0 <= k < |errors| ==> lo <= errors[k].row < hi
  }

  predicate RowsIncreasing(errors: seq<RowError>)
  {
    forall k, l :: 0 <= k < l < |errors| ==> errors[k].row < errors[l].row
  }

  /**
   * The error entries name spreadsheet lines of the rows run over (the
   * header is line 1, so the row at position p is line p + 2), in row order.
   */
  lemma {:induction false} ErrorRowsInOrder(rows: seq<Row>, first: nat, failure: nat -> Option<string>)
    ensures RowsWithin(Run(rows, first, failure).errors, first + 2, first + |rows| + 2)
    ensures RowsIncreasing(Run(rows, first, failure).errors)
    decreases |rows|
  {
    if rows != [] {
      var last := |rows| - 1;
      ErrorRowsInOrder(rows[..last], first, failure);
      var t := Run(rows[..last], first, failure).errors;
      var errors := Run(rows, first, failure).errors;
      assert failure(first + last).None? ==> errors == t;
      assert failure(first + last).Some? ==> errors == t + [RowError(first + last + 2, failure(first + last).value)];
      forall k | 0 <= k < |errors|
        ensures first + 2 <= errors[k].row < first + |rows| + 2
      {
        if k < |t| {
          assert errors[k] == t[k];
        }
      }
      forall k, l | 0 <= k < l < |errors|
        ensures errors[k].row < errors[l].row
      {
        assert errors[k] == t[k];
        if l < |t| {
          assert errors[l] == t[l];
        }
      }
    }
  }

  /** Some entry of `errors` names spreadsheet line `line`. */
  predicate Listed(errors: seq<RowError>, line: int)
  {
    exists k :: 0 <= k < |errors| && errors[k].row == line
  }

  lemma ListedAfterAppend(errors: seq<RowError>, e: RowError, line: int)
    ensures Listed(errors + [e], line) <==> Listed(errors, line) || e.row == line
    ensures forall x :: x in errors ==> x in errors + [e]
  {
    var all := errors + [e];
    if Listed(all, line) && e.row != line {
      var k :| 0 <= k < |all| && all[k].row == line;
      assert k < |errors| && errors[k] == all[k];
    }
    if Listed(errors, line) {
      var k :| 0 <= k < |errors| && errors[k].row == line;
      assert all[k] == errors[k];
    }
    assert all[|errors|] == e;
  }

  /** The error list after the last row: the one before it, plus an entry when that row's insert failed. */
  lemma ErrorsAfterLast(rows: seq<Row>, failure: nat -> Option<string>)
    requires rows != []
    ensures var last := |rows| - 1;
      var before := Run(rows[..last], 0, failure).errors;
      Run(rows, 0, failure).errors
        == if failure(last).Some? then before + [RowError(last + 2, failure(last).value)] else before
  {
    RunLast(rows, 0, |rows| - 1, failure);
  }

  /**
   * The row at position `idx` appears in the error list, with its insert's
   * message, exactly when its insert failed.
   */
  lemma {:induction false} ErrorListedIffInsertFailed(rows: seq<Row>, failure: nat -> Option<string>, idx: nat)
    requires idx < |rows|
    ensures failure(idx).Some? <==> Listed(Run(rows, 0, failure).errors, idx + 2)
    ensures failure(idx).Some? ==> RowError(idx + 2, failure(idx).value) in Run(rows, 0, failure).errors
    decreases |rows|
  {
    var last := |rows| - 1;
    if idx == last {
      LastRowListedIffFailed(rows, failure);
    } else {
      var front := rows[..last];
      ErrorsAfterLast(rows, failure);
      ErrorListedIffInsertFailed(front, failure, idx);
      var before := Run(front, 0, failure).errors;
      match failure(last)
      case None =>
        assert Run(rows, 0, failure).errors == before;
      case Some(msg) =>
        assert Run(rows, 0, failure).errors == before + [RowError(last + 2, msg)];
        ListedAfterAppend(before, RowError(last + 2, msg), idx + 2);
    }
  }

  /** The last row's case: earlier rows only ever list earlier lines. */
  lemma LastRowListedIffFailed(rows: seq<Row>, failure: nat -> Option<string>)
    requires rows != []
    ensures var last := |rows| - 1;
      && (failure(last).Some? <==> Listed(Run(rows, 0, failure).errors, last + 2))
      && (failure(last).Some? ==> RowError(last + 2, failure(last).value) in Run(rows, 0, failure).errors)
  {
    var last := |rows| - 1;
    var front := rows[..last];
    ErrorsAfterLast(rows, failure);
    var before := Run(front, 0, failure).errors;
    ErrorRowsInOrder(front, 0, failure);
    assert !Listed(before, last + 2) by {
      assert RowsWithin(before, 2, last + 2);
    }
    if failure(last).Some? {
      var e := RowError(last + 2, failure(last).value);
      ListedAfterAppend(before, e, last + 2);
      assert (before + [e])[|before|] == e;
    }
  }

  /**
   * The documents a run must insert, read off the rows front to back: the
   * document of every row whose insert does not raise, in row order.
   */
  function SucceededDocs(rows: seq<Row>, first: nat, failure: nat -> Option<string>): seq<map<string, Json>>
    decreases |rows|
  {
    if rows == [] then []
    else (if failure(first).None? then [RowDoc(rows[0])] else []) + SucceededDocs(rows[1..], first + 1, failure)
  }

  /**
   * The loop inserts exactly the documents of the rows whose insert does
   * not raise, each built from its own row, in row order.
   */
  lemma {:induction false} RunInsertsSucceeded(rows: seq<Row>, first: nat, failure: nat -> Option<string>)
    ensures Run(rows, first, failure).inserted == SucceededDocs(rows, first, failure)
    decreases |rows|
  {
    if rows != [] {
      var head := Run([rows[0]], first, failure);
      var tail := Run(rows[1..], first + 1, failure);
      assert Run(rows, first, failure) == Combine(head, tail) by {
        assert rows == [rows[0]] + rows[1..];
        RunSplits([rows[0]], rows[1..], first, failure);
      }
      assert head.inserted == (if failure(first).None? then [RowDoc(rows[0])] else []) by {
        RunSingle(rows[0], first, failure);
      }
      RunInsertsSucceeded(rows[1..], first + 1, failure);
    }
  }

  /** A run over a single row is one step from the empty tally. */
  lemma RunSingle(row: Row, first: nat, failure: nat -> Option<string>)
    ensures Run([row], first, failure) == Step(Tally(0, 0, [], []), row, first, failure(first))
  {
    assert [row][..0] == [];
  }

  /** The tally of two consecutive stretches of rows: counters added, lists concatenated. */
  function Combine(x: Tally, y: Tally): Tally
  {
    Tally(x.created + y.created, x.failed + y.failed, x.errors + y.errors, x.inserted + y.inserted)
  }

  /**
   * A failure never stops the loop: running over `a + b` is running over
   * `a` and then over `b` from where `a` ends, counters added and lists
   * concatenated.
   */
  lemma {:induction false} RunSplits(a: seq<Row>, b: seq<Row>, first: nat, failure: nat -> Option<string>)
    ensures Run(a + b, first, failure) == Combine(Run(a, first, failure), Run(b, first + |a|, failure))
    decreases |b|
  {
    if b == [] {
      assert a + b == a;
    } else {
      RunSplits(a, b[..|b| - 1], first, failure);
      SplitStep(a, b, first, failure);
    }
  }

  /** The inductive step of `RunSplits`: one more row at the end of `b`. */
  lemma {:induction false} SplitStep(a: seq<Row>, b: seq<Row>, first: nat, failure: nat -> Option<string>)
    requires b != []
    requires Run(a + b[..|b| - 1], first, failure)
          == Combine(Run(a, first, failure), Run(b[..|b| - 1], first + |a|, failure))
    ensures Run(a + b, first, failure) == Combine(Run(a, first, failure), Run(b, first + |a|, failure))
  {
    var start := first + |a|;
    var pos := start + |b| - 1;
    var row := b[|b| - 1];
    var y, z := Run(b[..|b| - 1], start, failure), Run(b, start, failure);
    assert z == Step(y, row, pos, failure(pos)) by {
      RunLast(b, start, pos, failure);
    }
    var whole, before := Run(a + b, first, failure), Run(a + b[..|b| - 1], first, failure);
    assert whole == Step(before, row, pos, failure(pos)) by {
      RunAppendLast(a, b, first, pos, failure);
    }
    StepChain(whole, before, Run(a, first, failure), y, z, row, pos, failure(pos));
  }

  /** `StepAfterCombine` read on named tallies: a step after a joined run is a joined run ending in that step. */
  lemma StepChain(whole: Tally, before: Tally, x: Tally, y: Tally, z: Tally, row: Row, pos: nat, outcome: Option<string>)
    requires whole == Step(before, row, pos, outcome) && before == Combine(x, y)
    requires z == Step(y, row, pos, outcome)
    ensures whole == Combine(x, z)
  {
    StepAfterCombine(x, y, row, pos, outcome);
  }

  /** Running over `a + b` is one step, at the last row of `b`, after running over `a` and the rest of `b`. */
  lemma {:induction false} RunAppendLast(a: seq<Row>, b: seq<Row>, first: nat, pos: nat, failure: nat -> Option<string>)
    requires b != [] && pos == first + |a| + |b| - 1
    ensures Run(a + b, first, failure) == Step(Run(a + b[..|b| - 1], first, failure), b[|b| - 1], pos, failure(pos))
  {
    assert (a + b)[..|a + b| - 1] == a + b[..|b| - 1];
    RunLast(a + b, first, pos, failure);
  }


  /** The definition of `Run` read as one step after all but the last row, at that row's position `pos`. */
  lemma RunLast(rows: seq<Row>, first: nat, pos: nat, failure: nat -> Option<string>)
    requires rows != [] && pos == first + |rows| - 1
    ensures Run(rows, first, failure) == Step(Run(rows[..|rows| - 1], first, failure), rows[|rows| - 1], pos, failure(pos))
  {
  }

  /** One more row of the sheet is one more `Step` of the prefix run. */
  lemma RunPrefixStep(rows: seq<Row>, idx: nat, failure: nat -> Option<string>)
    requires idx < |rows|
    ensures Run(rows[..idx + 1], 0, failure) == Step(Run(rows[..idx], 0, failure), rows[idx], idx, failure(idx))
  {
    assert rows[..idx + 1][..idx] == rows[..idx] && rows[..idx + 1][idx] == rows[idx];
    RunLast(rows[..idx + 1], 0, idx, failure);
  }

  lemma StepAfterCombine(x: Tally, y: Tally, row: Row, pos: nat, outcome: Option<string>)
    ensures Step(Combine(x, y), row, pos, outcome) == Combine(x, Step(y, row, pos, outcome))
  {
    match outcome
    case None =>
      assert x.inserted + (y.inserted + [RowDoc(row)]) == (x.inserted + y.inserted) + [RowDoc(row)];
    case Some(e) =>
      assert x.errors + (y.errors + [RowError(pos + 2, e)]) == (x.errors + y.errors) + [RowError(pos + 2, e)];
  }

  /** The JSON of the error list: one `{"row", "error"}` object per entry, in order. */
  function ErrorsJson(errors: seq<RowError>): (r: seq<Json>)
    ensures |r| == |errors|
    ensures forall k :: 0 <= k < |errors| ==>
      r[k] == JObj(map["row" := JNum(errors[k].row), "error" := JStr(errors[k].error)])
  {
    if errors == [] then []
    else [JObj(map["row" := JNum(errors[0].row), "error" := JStr(errors[0].error)])] + ErrorsJson(errors[1..])
  }

  /**
   * The 200 reply carrying the summary and the error list: a success body
   * without code, errors or meta.
   */
  function SummaryReply(total: nat, t: Tally): (r: Reply)
    ensures r.status == 200 && r.body.Keys == {"data", "status", "message"}
    ensures r.body["status"] == JStr("success") && r.body["message"] == JStr("Bulk upload finished")
    ensures r.body["data"] == JObj(map[
      "summary" := JObj(map["total" := JNum(total), "created" := JNum(t.created), "failed" := JNum(t.failed)]),
      "errors" := JArr(ErrorsJson(t.errors))])
  {
    var summary := map["total" := JNum(total), "created" := JNum(t.created), "failed" := JNum(t.failed)];
    Respond(JObj(map["summary" := JObj(summary), "errors" := JArr(ErrorsJson(t.errors))]),
            200, "Bulk upload finished", JNull, JNull, JNull)
  }

  /** werkzeug's truth value of the file part: present and with a non-empty file name. */
  predicate HasFile(file: FileField)
  {
    file.Uploaded? && file.filename != ""
  }

  /** The body of the row loop: one insert attempt and the counters it moves. */
  method InsertRow(row: Row, pos: nat, attempt: Option<string>, created: nat, failed: nat,
                   errors: seq<RowError>, inserted: seq<map<string, Json>>)
    returns (created': nat, failed': nat, errors': seq<RowError>, inserted': seq<map<string, Json>>)
    ensures Tally(created', failed', errors', inserted') == Step(Tally(created, failed, errors, inserted), row, pos, attempt)
  {
    created', failed', errors', inserted' := created, failed, errors, inserted;
    var data := row - {"name"};
    if attempt.None? {
      created' := created + 1;
      inserted' := inserted + [ImamRequests.NewImamDoc(data)];
    } else {
      failed' := failed + 1;
      errors' := errors + [RowError(pos + 2, attempt.value)];
    }
  }

  /**
   * `bulk_upload_imams`, step by step.  Returns the reply and the documents
   * inserted, in row order.
   */
  method BulkUploadImams(file: FileField, failure: nat -> Option<string>)
    returns (reply: Reply, inserted: seq<map<string, Json>>)
    ensures !HasFile(file) ==> reply == Error("No file uploaded under 'file'", 400, 400, JNull) && inserted == []
    ensures HasFile(file) && file.sheet.Unreadable? ==>
      reply == Error("Bulk upload failed", 500, 500, Description(file.sheet.reason)) && inserted == []
    ensures HasFile(file) && file.sheet.Rows? ==>
      var t := Run(file.sheet.rows, 0, failure);
      reply == SummaryReply(|file.sheet.rows|, t) && inserted == t.inserted
  {
    if !HasFile(file) {
      return Error("No file uploaded under 'file'", 400, 400, JNull), [];
    }
    if file.sheet.Unreadable? {
      return Error("Bulk upload failed", 500, 500, Description(file.sheet.reason)), [];
    }
    var rows := file.sheet.rows;
    var created, failed := 0, 0;
    var errors: seq<RowError> := [];
    inserted := [];
    var idx := 0;
    while idx < |rows|
      invariant 0 <= idx <= |rows|
      invariant Run(rows[..idx], 0, failure) == Tally(created, failed, errors, inserted)
    {
      RunPrefixStep(rows, idx, failure);
      created, failed, errors, inserted := InsertRow(rows[idx], idx, failure(idx), created, failed, errors, inserted);
      idx := idx + 1;
    }
    assert rows[..idx] == rows;
    reply := SummaryReply(|rows|, Tally(created, failed, errors, inserted));
  }
}
