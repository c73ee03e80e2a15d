/**
 * The argument handling of the Imam endpoints that read, create and delete
 * records: the list filters of `get_all_imams`, the required-field checks of
 * `register_imam`, the choice of record in `get_imam` and the checks of
 * `delete_imam`.  The database is reduced to what each check consults.
 */
module ImamRequests {
  import opened Wrappers
  import opened JsonValue
  import opened Envelope

  /** A form entry that `get_all_imams` turns into a list filter. */
  predicate KeptFilter(form: map<string, Json>, k: string)
  {
    k in form && k != "cmd" && k != "data" && Truthy(form[k])
  }

  /**
   * The filters passed to the Imam listing: every form entry except `cmd`
   * and `data` whose value is non-empty, or None when no entry is left.
   */
  function ListFilters(form: map<string, Json>): (r: Option<map<string, Json>>)
    ensures r.Some? ==> r.value != map[]
    ensures forall k :: (r.Some? && k in r.value) <==> KeptFilter(form, k)
    ensures r.Some? ==> forall k :: k in r.value ==> k in form && r.value[k] == form[k]
  {
    var kept := map k | k in form && k != "cmd" && k != "data" && Truthy(form[k]) :: form[k];
    assert forall k :: k in kept <==> KeptFilter(form, k);
    if kept == map[] then None else Some(kept)
  }

  /** Filtering an already filtered form changes nothing. */
  lemma ListFiltersIdempotent(form: map<string, Json>)
    requires ListFilters(form).Some?
    ensures ListFilters(ListFilters(form).value) == ListFilters(form)
  {
    var f := ListFilters(form).value;
    var g := ListFilters(f);
    assert g.Some? by {
      var k :| k in f;
      assert KeptFilter(f, k);
    }
    assert g.value == f;
  }

  /** The framework's own `cmd` and `data` entries never influence the filters. */
  lemma ListFiltersIgnoreReserved(form: map<string, Json>, cmd: Json, data: Json)
    ensures ListFilters(form["cmd" := cmd]["data" := data]) == ListFilters(form - {"cmd", "data"})
  {
    var a := ListFilters(form["cmd" := cmd]["data" := data]);
    var b := ListFilters(form - {"cmd", "data"});
    forall k ensures (a.Some? && k in a.value) <==> (b.Some? && k in b.value) {
      assert KeptFilter(form["cmd" := cmd]["data" := data], k) <==> KeptFilter(form - {"cmd", "data"}, k);
    }
    if b.Some? {
      var k :| k in b.value;
      assert a.Some?;
    }
    if a.Some? {
      var k :| k in a.value;
      assert b.Some?;
      assert a.value == b.value;
    }
  }

  /** `payload.get(field)` is truthy. */
  predicate Present(payload: map<string, Json>, field: string)
  {
    field in payload && Truthy(payload[field])
  }

  /** The required fields of `register_imam`, in the order they are checked. */
  const REQUIRED_IMAM_FIELDS: seq<string> := ["faithful", "mosque_assigned", "date_appointed"]

  /** The position of the first field in `fields` that the payload lacks, if any. */
  function FirstMissing(payload: map<string, Json>, fields: seq<string>): (r: Option<nat>)
    ensures r.None? ==> forall j :: 0 <= j < |fields| ==> Present(payload, fields[j])
    ensures r.Some? ==> r.value < |fields| && !Present(payload, fields[r.value])
    ensures r.Some? ==> forall j :: 0 <= j < r.value ==> Present(payload, fields[j])
  {
    if fields == [] then None
    else if !Present(payload, fields[0]) then Some(0)
    else match FirstMissing(payload, fields[1..])
      case None => None
      case Some(j) => Some(j + 1)
  }

  /**
   * `{"doctype": "Imam", **data}`: the document handed to insert.  A
   * `doctype` key in the data overrides the default.
   */
  function NewImamDoc(data: map<string, Json>): (r: map<string, Json>)
    ensures r.Keys == data.Keys + {"doctype"}
    ensures forall k :: k in data ==> r[k] == data[k]
    ensures "doctype" !in data ==> r["doctype"] == JStr("Imam")
  {
    map["doctype" := JStr("Imam")] + data
  }

  /** The message of the 400 that names a missing required field. */
  function MissingField(field: string): string
  {
    "Missing required field `" + field + "`"
  }

  /** What `register_imam` does: refuse with a reply, or insert a document. */
  datatype RegisterOutcome =
    | Refused(reply: Reply)
      /** The document was inserted; the reply is the read view of the new record. */
    | Inserted(doc: map<string, Json>)

  /**
   * `register_imam` on the `data` object of the request.  `insertError` is
   * the exception the insert raises, if any.
   */
  function RegisterImam(payload: map<string, Json>, insertError: Option<string>): (r: RegisterOutcome)
    ensures r.Inserted? <==>
      insertError.None? && forall j :: 0 <= j < |REQUIRED_IMAM_FIELDS| ==> Present(payload, REQUIRED_IMAM_FIELDS[j])
    ensures r.Inserted? ==> r.doc.Keys == payload.Keys + {"doctype"} && forall k :: k in payload ==> r.doc[k] == payload[k]
    ensures r.Refused? ==> r.reply.status == 400 || r.reply.status == 500
    ensures r.Refused? && r.reply.status == 400 ==>
      exists j :: 0 <= j < |REQUIRED_IMAM_FIELDS| && !Present(payload, REQUIRED_IMAM_FIELDS[j])
    ensures r.Refused? && r.reply.status == 500 ==>
      insertError.Some? && r.reply == Error("Failed to create Imam", 500, 500, Description(insertError.value))
  {
    match FirstMissing(payload, REQUIRED_IMAM_FIELDS)
    case Some(j) => Refused(Error(MissingField(REQUIRED_IMAM_FIELDS[j]), 400, 400, JNull))
    case None =>
      match insertError
      case Some(e) => Refused(Error("Failed to create Imam", 500, 500, Description(e)))
      case None => Inserted(NewImamDoc(payload))
  }

  /**
   * The required fields are checked in order and the first missing one is
   * reported with a 400 before anything is inserted; with all three present
   * the payload is inserted unchanged under doctype Imam, or the insert's
   * error becomes a 500.
   */
  lemma RegisterChecksRequiredFields(payload: map<string, Json>, insertError: Option<string>)
    ensures var r := RegisterImam(payload, insertError);
      && (!Present(payload, "faithful") ==>
            r == Refused(Error(MissingField("faithful"), 400, 400, JNull)))
      && (Present(payload, "faithful") && !Present(payload, "mosque_assigned") ==>
            r == Refused(Error(MissingField("mosque_assigned"), 400, 400, JNull)))
      && (Present(payload, "faithful") && Present(payload, "mosque_assigned") && !Present(payload, "date_appointed") ==>
            r == Refused(Error(MissingField("date_appointed"), 400, 400, JNull)))
      && (r.Inserted? <==> Present(payload, "faithful") && Present(payload, "mosque_assigned")
                             && Present(payload, "date_appointed") && insertError.None?)
      && (r.Inserted? ==> r.doc == NewImamDoc(payload))
  {
    var m := FirstMissing(payload, REQUIRED_IMAM_FIELDS);
    var tail := ["mosque_assigned", "date_appointed"];
    if !Present(payload, "faithful") {
      assert RegisterImam(payload, insertError) == Refused(Error(MissingField("faithful"), 400, 400, JNull)) by {
        assert m == Some(0);
      }
    } else if !Present(payload, "mosque_assigned") {
      assert RegisterImam(payload, insertError) == Refused(Error(MissingField("mosque_assigned"), 400, 400, JNull)) by {
        assert REQUIRED_IMAM_FIELDS[1..] == tail;
        assert FirstMissing(payload, tail) == Some(0);
        assert m == Some(1);
      }
    } else if !Present(payload, "date_appointed") {
      assert RegisterImam(payload, insertError) == Refused(Error(MissingField("date_appointed"), 400, 400, JNull)) by {
        assert REQUIRED_IMAM_FIELDS[1..] == tail && tail[1..] == ["date_appointed"];
        assert FirstMissing(payload, ["date_appointed"]) == Some(0);
        assert FirstMissing(payload, tail) == Some(1);
        assert m == Some(2);
      }
    } else {
      assert m.None? by {
        assert REQUIRED_IMAM_FIELDS[1..] == tail && tail[1..] == ["date_appointed"];
      }
    }
  }

  /**
   * `get_imam(name, faithful)` picks the record to show: by `name` when one
   * is given, else the first Imam of `faithful` (`firstImamOf` stands for that
   * query).  An empty string stands for an absent argument.
   */
  function GetImamTarget(name: string, faithful: string, firstImamOf: map<string, string>): (r: Result<string, Reply>)
    ensures r.Failure? && r.error.status == 400 <==> name == "" && faithful == ""
    ensures name == "" && faithful == "" ==> r == Failure(Error("Provide `name` or `faithful`", 400, 400, JNull))
    ensures name != "" ==> r == Success(name)
    ensures name == "" && faithful != "" ==>
      if faithful in firstImamOf then r == Success(firstImamOf[faithful])
      else r == Failure(Error(NoImamForFaithful(faithful), 404, 404, JNull))
  {
    if name == "" && faithful == "" then
      Failure(Error("Provide `name` or `faithful`", 400, 400, JNull))
    else if name != "" then
      Success(name)
    else if faithful !in firstImamOf then
      Failure(Error(NoImamForFaithful(faithful), 404, 404, JNull))
    else
      Success(firstImamOf[faithful])
  }

  /** The 404 message of `get_imam` when the faithful has no Imam. */
  function NoImamForFaithful(faithful: string): string
  {
    "No Imam found for faithful " + faithful
  }

  /** The 404 message of `delete_imam` for an unknown name. */
  function ImamNotFound(name: string): string
  {
    "Imam " + name + " not found"
  }

  /**
   * `delete_imam(name)` against the set of existing Imam names:
   * `deleteError` is the exception the deletion raises, if any.  Returns the
   * reply and the names that exist afterwards.
   */
  function DeleteImam(name: string, existing: set<string>, deleteError: Option<string>): (r: (Reply, set<string>))
    ensures name == "" ==> r.0.status == 400 && r.1 == existing
    ensures name == "" ==> r.0 == Error("Provide `name` to delete", 400, 400, JNull)
    ensures name != "" && name !in existing ==> r.0.status == 404 && r.1 == existing
    ensures name != "" && name !in existing ==> r.0 == Error(ImamNotFound(name), 404, 404, JNull)
    ensures name != "" && name in existing && deleteError.Some? ==> r.0.status == 500 && r.1 == existing
    ensures name != "" && name in existing && deleteError.Some? ==>
      r.0 == Error("Failed to delete Imam", 500, 500, Description(deleteError.value))
    ensures name != "" && name in existing && deleteError.None? ==>
      && r.0 == Respond(JObj(map["name" := JStr(name)]), 200, "Imam deleted", JNull, JNull, JNull)
      && r.1 == existing - {name}
  {
    if name == "" then
      (Error("Provide `name` to delete", 400, 400, JNull), existing)
    else if name !in existing then
      (Error(ImamNotFound(name), 404, 404, JNull), existing)
    else if deleteError.Some? then
      (Error("Failed to delete Imam", 500, 500, Description(deleteError.value)), existing)
    else
      (Respond(JObj(map["name" := JStr(name)]), 200, "Imam deleted", JNull, JNull, JNull), existing - {name})
  }

  /** After a successful deletion the same name is gone: deleting it again is a 404 that changes nothing. */
  lemma DeleteTwiceIsNotFound(name: string, existing: set<string>, again: Option<string>)
    requires name != "" && name in existing
    ensures var first := DeleteImam(name, existing, None);
      var second := DeleteImam(name, first.1, again);
      second.0 == Error(ImamNotFound(name), 404, 404, JNull) && second.1 == first.1 && name !in first.1
  {
  }
}
