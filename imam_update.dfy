/**
 * `update_imam`: the record named in the payload is loaded, its
 * certifications are replaced when a non-empty list is sent (each
 * attachment normalised on the way: a data URL is uploaded and replaced by
 * the file URL, an empty one becomes null), the other payload fields are
 * merged in, and the record is saved.  Any failure returns before the save,
 * so the Imam record is not saved.
 */
module ImamUpdate {
  import opened Wrappers
  import opened JsonValue
  import opened Text
  import opened Envelope
  import DataUrl

  /** A stored Imam: its own fields and its rows of the certifications child table. */
  datatype ImamRecord = ImamRecord(fields: map<string, Json>, certifications: seq<map<string, Json>>)

  /** What `update_imam` does: refuse with a reply, or save a record under a name. */
  datatype UpdateOutcome =
    | Refused(reply: Reply)
      /** The record was saved; the reply is the read view of it. */
    | Saved(name: string, record: ImamRecord)

  /** Why normalising the certifications stopped: an upload failed (400) or Python raised (500). */
  datatype CertFailure = UploadFailed(reason: string) | Crashed(reason: string)

  /** What file storage answers to one upload: the random name token and the failures of decoding and storing. */
  /**
   * What `doc.update` or `doc.save` raised: frappe's DoesNotExistError,
   * which the endpoint's outer handler answers like a failed lookup, or any
   * other exception, with its text.
   */
  datatype SaveRaised = DoesNotExist | SaveFailed(msg: string)

  datatype StorageAnswer = StorageAnswer(token: string, decodeError: Option<string>, storeError: Option<string>)

  /** Every name token storage hands out is eight hex digits, as `uuid4().hex[:8]` is. */
  ghost predicate StorageWellFormed(storage: string -> StorageAnswer)
  {
    forall a :: DataUrl.IsHexToken(storage(a).token)
  }

  /** `save_base64_file(attachment, "Imam", name)` with storage's answers for this attachment. */
  function Upload(dataUrl: string, storage: string -> StorageAnswer): (r: Result<string, string>)
    requires StorageWellFormed(storage)
    ensures r.Success? ==> StartsWith(r.value, DataUrl.FILES_URL)
  {
    var answer := storage(dataUrl);
    var r := DataUrl.SaveBase64File(dataUrl, answer.token, answer.decodeError, answer.storeError);
    assert r.Success? ==> r.value[..|DataUrl.FILES_URL|] == DataUrl.FILES_URL;
    r
  }

  lemma FileUrlIsNotDataUrl(url: string)
    requires StartsWith(url, DataUrl.FILES_URL)
    ensures url != [] && !StartsWith(url, "data:")
  {
    assert url[0] == DataUrl.FILES_URL[0];
  }

  /** A stored certification row: its attachment is null or a non-empty text that is not a data URL. */
  predicate NormalisedCert(c: map<string, Json>)
  {
    && "attachment" in c
    && (c["attachment"] == JNull
        || (c["attachment"].JStr? && c["attachment"].s != [] && !StartsWith(c["attachment"].s, "data:")))
  }

  /**
   * The attachment a certification row is stored with: null for an empty
   * one, the uploaded file's URL for a data URL, any other text as it is.
   * A truthy value that is not a text makes `startswith` raise.
   */
  function NormaliseAttachment(attachment: Json, storage: string -> StorageAnswer): (r: Result<Json, CertFailure>)
    requires StorageWellFormed(storage)
    ensures r.Success? ==> r.value == JNull || (r.value.JStr? && r.value.s != [] && !StartsWith(r.value.s, "data:"))
  {
    if !Truthy(attachment) then Success(JNull)
    else if !attachment.JStr? then Failure(Crashed(NoAttribute(TypeName(attachment), "startswith")))
    else if !StartsWith(attachment.s, "data:") then Success(attachment)
    else match Upload(attachment.s, storage)
      case Failure(e) => Failure(UploadFailed(e))
      case Success(url) =>
        FileUrlIsNotDataUrl(url);
        Success(JStr(url))
  }

  /**
   * The four ways an attachment is handled: an empty one becomes null, a
   * truthy non-text one makes Python raise, a data URL is replaced by the
   * uploaded file's URL (or stops the update with the upload's error), and
   * any other text is kept.
   */
  lemma NormaliseAttachmentCases(attachment: Json, storage: string -> StorageAnswer)
    requires StorageWellFormed(storage)
    ensures !Truthy(attachment) ==> NormaliseAttachment(attachment, storage) == Success(JNull)
    ensures Truthy(attachment) && !attachment.JStr? ==>
      NormaliseAttachment(attachment, storage) == Failure(Crashed(NoAttribute(TypeName(attachment), "startswith")))
    ensures attachment.JStr? && Truthy(attachment) && !StartsWith(attachment.s, "data:") ==>
      NormaliseAttachment(attachment, storage) == Success(attachment)
    ensures attachment.JStr? && StartsWith(attachment.s, "data:") ==>
      var uploaded := Upload(attachment.s, storage);
      && (uploaded.Success? ==> NormaliseAttachment(attachment, storage) == Success(JStr(uploaded.value)))
      && (uploaded.Failure? ==> NormaliseAttachment(attachment, storage) == Failure(UploadFailed(uploaded.error)))
  {
    if attachment.JStr? && StartsWith(attachment.s, "data:") {
      assert Truthy(attachment);
    }
  }

  /**
   * One iteration of the certification loop: the row appended for `cert`
   * (its attachment normalised, every other column kept), or why the loop
   * stopped.
   */
  function NormaliseCert(cert: Json, storage: string -> StorageAnswer): (r: Result<map<string, Json>, CertFailure>)
    requires StorageWellFormed(storage)
    ensures !cert.JObj? ==> r == Failure(Crashed(NoAttribute(TypeName(cert), "get")))
    ensures cert.JObj? ==> r.Success? == NormaliseAttachment(Get(cert.fields, "attachment"), storage).Success?
    ensures cert.JObj? && r.Failure? ==> r.error == NormaliseAttachment(Get(cert.fields, "attachment"), storage).error
    ensures r.Success? ==> NormalisedCert(r.value)
    ensures r.Success? ==> r.value.Keys == cert.fields.Keys + {"attachment"}
    ensures r.Success? ==> r.value["attachment"] == NormaliseAttachment(Get(cert.fields, "attachment"), storage).value
    ensures r.Success? ==> forall k :: k in cert.fields && k != "attachment" ==> r.value[k] == cert.fields[k]
  {
    if !cert.JObj? then Failure(Crashed(NoAttribute(TypeName(cert), "get")))
    else
      match NormaliseAttachment(Get(cert.fields, "attachment"), storage)
      case Failure(f) => Failure(f)
      case Success(a) => Success(cert.fields["attachment" := a])
  }

  /**
   * The certification loop over `items`: the rows appended in order, or the
   * failure of the first item that fails.
   */
  function NormaliseAll(items: seq<Json>, storage: string -> StorageAnswer): (r: Result<seq<map<string, Json>>, CertFailure>)
    requires StorageWellFormed(storage)
    ensures r.Success? <==> forall i :: 0 <= i < |items| ==> NormaliseCert(items[i], storage).Success?
    ensures r.Success? ==> |r.value| == |items|
    ensures r.Success? ==> forall i :: 0 <= i < |items| ==> NormaliseCert(items[i], storage) == Success(r.value[i])
    ensures r.Failure? ==> exists i :: 0 <= i < |items| && NormaliseCert(items[i], storage) == Failure(r.error)
                                       && forall j :: 0 <= j < i ==> NormaliseCert(items[j], storage).Success?
    decreases |items|
  {
    if items == [] then Success([])
    else
      var last := |items| - 1;
      var front := items[..last];
      match NormaliseAll(front, storage)
      case Failure(f) =>
        FailureCarriesOver(items, front, f, storage);
        Failure(f)
      case Success(done) =>
        match NormaliseCert(items[last], storage)
        case Failure(f) =>
          SuccessCarriesOver(items, front, done, storage);
          Failure(f)
        case Success(c) =>
          SuccessCarriesOver(items, front, done, storage);
          assert forall i :: 0 <= i < last ==> (done + [c])[i] == done[i];
          Success(done + [c])
  }

  /** Rows for all but the last item are rows for the same positions of all items. */
  lemma SuccessCarriesOver(items: seq<Json>, front: seq<Json>, done: seq<map<string, Json>>, storage: string -> StorageAnswer)
    requires StorageWellFormed(storage)
    requires items != [] && front == items[..|items| - 1] && |done| == |front|
    requires forall i :: 0 <= i < |front| ==> NormaliseCert(front[i], storage) == Success(done[i])
    ensures forall i :: 0 <= i < |items| - 1 ==> NormaliseCert(items[i], storage) == Success(done[i])
  {
    forall i | 0 <= i < |items| - 1
      ensures NormaliseCert(items[i], storage) == Success(done[i])
    {
      assert front[i] == items[i];
    }
  }

  /** A first failure among all but the last item is a first failure among all items. */
  lemma FailureCarriesOver(items: seq<Json>, front: seq<Json>, f: CertFailure, storage: string -> StorageAnswer)
    requires StorageWellFormed(storage)
    requires items != [] && front == items[..|items| - 1]
    requires exists i :: 0 <= i < |front| && NormaliseCert(front[i], storage) == Failure(f)
                         && forall j :: 0 <= j < i ==> NormaliseCert(front[j], storage).Success?
    ensures exists i :: 0 <= i < |items| && NormaliseCert(items[i], storage) == Failure(f)
                        && forall j :: 0 <= j < i ==> NormaliseCert(items[j], storage).Success?
    ensures exists i :: 0 <= i < |items| && !NormaliseCert(items[i], storage).Success?
  {
    var i :| 0 <= i < |front| && NormaliseCert(front[i], storage) == Failure(f)
             && forall j :: 0 <= j < i ==> NormaliseCert(front[j], storage).Success?;
    assert front[i] == items[i];
    forall j | 0 <= j < i
      ensures NormaliseCert(items[j], storage).Success?
    {
      assert front[j] == items[j];
    }
  }

  /** The loop after one more item whose row is `row`: that row is appended. */
  lemma NormaliseAllAppend(items: seq<Json>, i: nat, done: seq<map<string, Json>>, row: map<string, Json>,
                           storage: string -> StorageAnswer)
    requires StorageWellFormed(storage)
    requires i < |items|
    requires NormaliseAll(items[..i], storage) == Success(done) && NormaliseCert(items[i], storage) == Success(row)
    ensures NormaliseAll(items[..i + 1], storage) == Success(done + [row])
  {
    var next := items[..i + 1];
    assert next[..|next| - 1] == items[..i] && next[|next| - 1] == items[i];
  }

  /** Once a prefix of the items fails, the whole loop fails the same way. */
  lemma {:induction false} PrefixFailureSticks(items: seq<Json>, k: nat, storage: string -> StorageAnswer)
    requires StorageWellFormed(storage)
    requires k <= |items| && NormaliseAll(items[..k], storage).Failure?
    ensures NormaliseAll(items, storage) == NormaliseAll(items[..k], storage)
    decreases |items| - k
  {
    if k < |items| {
      var front := items[..|items| - 1];
      assert front[..k] == items[..k];
      PrefixFailureSticks(front, k, storage);
    } else {
      assert items[..k] == items;
    }
  }

  /**
   * Python's error when `for cert in certifications` meets a truthy value
   * that is not a list: iterating a string or a dict yields strings, whose
   * missing `get` raises AttributeError; any other value is not iterable.
   */
  function IterationError(j: Json): string
  {
    match j
    case JStr(_) => NoAttribute("str", "get")
    case JObj(_) => NoAttribute("str", "get")
    case _ => "'" + TypeName(j) + "' object is not iterable"
  }

  /**
   * The certifications the saved record ends up with, given the current rows
   * and the payload's value: an empty value keeps the current rows, a list
   * replaces them by its normalised items, and any other value makes the
   * loop raise.
   */
  function NewCertifications(current: seq<map<string, Json>>, certs: Json, storage: string -> StorageAnswer)
    : (r: Result<seq<map<string, Json>>, CertFailure>)
    requires StorageWellFormed(storage)
    ensures !Truthy(certs) ==> r == Success(current)
    ensures Truthy(certs) && certs.JArr? ==> r == NormaliseAll(certs.items, storage)
    ensures Truthy(certs) && !certs.JArr? ==> r == Failure(Crashed(IterationError(certs)))
    ensures r.Success? && Truthy(certs) ==> certs.JArr? && |r.value| == |certs.items|
    ensures r.Success? ==> Truthy(certs) || r.value == current
  {
    if !Truthy(certs) then Success(current)
    else if certs.JArr? then NormaliseAll(certs.items, storage)
    else Failure(Crashed(IterationError(certs)))
  }

  /**
   * The reply for a stopped certification loop: a failed upload is a 400
   * "Attachment upload failed", anything Python raised a 500 "Failed to
   * update Imam"; both carry the reason as the error description.
   */
  function FailureReply(f: CertFailure): (r: Reply)
    ensures r.status == (if f.UploadFailed? then 400 else 500)
    ensures "message" in r.body
         && r.body["message"] == JStr(if f.UploadFailed? then "Attachment upload failed" else "Failed to update Imam")
    ensures "code" in r.body && r.body["code"] == JNum(r.status)
    ensures "data" in r.body && r.body["data"] == JNull
    ensures "status" in r.body && r.body["status"] == JStr("error")
    ensures "errors" in r.body && r.body["errors"] == Description(f.reason)
  {
    match f
    case UploadFailed(e) => Error("Attachment upload failed", 400, 400, Description(e))
    case Crashed(e) => Error("Failed to update Imam", 500, 500, Description(e))
  }

  /**
   * `update_imam` on the `data` object of the request, against the stored
   * records.  `saveError` is the exception `doc.update` or `doc.save` raises, if
   * any; a DoesNotExistError is answered with the 404 of a failed lookup.
   */
  function UpdateSpec(records: map<string, ImamRecord>, payload: map<string, Json>,
                      storage: string -> StorageAnswer, saveError: Option<SaveRaised>): (r: UpdateOutcome)
    requires StorageWellFormed(storage)
    ensures !Truthy(Get(payload, "name")) ==> r == Refused(Error("Missing `name` for update", 400, 400, JNull))
    ensures Truthy(Get(payload, "name")) && !(Get(payload, "name").JStr? && Get(payload, "name").s in records) ==>
      r == Refused(Error("Imam not found", 404, 404, JNull))
    ensures Truthy(Get(payload, "name")) && Get(payload, "name").JStr? && Get(payload, "name").s in records ==>
      var certs := NewCertifications(records[Get(payload, "name").s].certifications, Get(payload, "certifications"), storage);
      && (r.Saved? <==> certs.Success? && saveError.None?)
      && (certs.Failure? ==> r == Refused(FailureReply(certs.error)))
      && (certs.Success? && saveError == Some(DoesNotExist) ==> r == Refused(Error("Imam not found", 404, 404, JNull)))
      && (certs.Success? && saveError.Some? && saveError.value.SaveFailed? ==>
            r == Refused(Error("Failed to update Imam", 500, 500, Description(saveError.value.msg))))
      && (r.Saved? ==> r.record.certifications == certs.value)
    ensures r.Refused? ==> r.reply.status == 400 || r.reply.status == 404 || r.reply.status == 500
    ensures r.Saved? ==> Get(payload, "name") == JStr(r.name) && r.name in records && saveError.None?
    ensures r.Saved? ==> r.record.fields == records[r.name].fields + (payload - {"name", "certifications"})
    ensures r.Saved? && !Truthy(Get(payload, "certifications")) ==>
      r.record.certifications == records[r.name].certifications
    ensures r.Saved? && Truthy(Get(payload, "certifications")) ==>
      var certs := Get(payload, "certifications");
      && certs.JArr? && |r.record.certifications| == |certs.items|
      && forall i :: 0 <= i < |certs.items| ==> NormaliseCert(certs.items[i], storage) == Success(r.record.certifications[i])
  {
    var name := Get(payload, "name");
    if !Truthy(name) then Refused(Error("Missing `name` for update", 400, 400, JNull))
    else if !name.JStr? || name.s !in records then Refused(Error("Imam not found", 404, 404, JNull))
    else
      var current := records[name.s];
      var rest := payload - {"name"};
      assert Get(rest, "certifications") == Get(payload, "certifications");
      match NewCertifications(current.certifications, Get(rest, "certifications"), storage)
      case Failure(f) => Refused(FailureReply(f))
      case Success(certs) =>
        if saveError == Some(DoesNotExist) then Refused(Error("Imam not found", 404, 404, JNull))
        else if saveError.Some? then Refused(Error("Failed to update Imam", 500, 500, Description(saveError.value.msg)))
        else
          assert rest - {"certifications"} == payload - {"name", "certifications"};
          Saved(name.s, ImamRecord(current.fields + (rest - {"certifications"}), certs))
  }

  /** The records after the update: a refusal writes nothing, a save replaces one record. */
  function Persist(records: map<string, ImamRecord>, outcome: UpdateOutcome): (r: map<string, ImamRecord>)
    ensures outcome.Refused? ==> r == records
    ensures outcome.Saved? ==> r.Keys == records.Keys + {outcome.name} && r[outcome.name] == outcome.record
    ensures forall k :: k in records && !(outcome.Saved? && k == outcome.name) ==> k in r && r[k] == records[k]
  {
    match outcome
    case Refused(_) => records
    case Saved(name, record) => records[name := record]
  }

  /**
   * An attachment whose upload fails means nothing is saved: the update is
   * refused, with the upload's 400 or an earlier item's error.
   */
  lemma FailedUploadSavesNothing(records: map<string, ImamRecord>, payload: map<string, Json>,
                                 storage: string -> StorageAnswer, saveError: Option<SaveRaised>, i: nat)
    requires StorageWellFormed(storage)
    requires Get(payload, "certifications").JArr? && i < |Get(payload, "certifications").items|
    requires var cert := Get(payload, "certifications").items[i];
      && cert.JObj? && Get(cert.fields, "attachment").JStr?
      && StartsWith(Get(cert.fields, "attachment").s, "data:")
      && Upload(Get(cert.fields, "attachment").s, storage).Failure?
    ensures UpdateSpec(records, payload, storage, saveError).Refused?
    ensures Persist(records, UpdateSpec(records, payload, storage, saveError)) == records
  {
    var certs := Get(payload, "certifications");
    var r := UpdateSpec(records, payload, storage, saveError);
    if r.Saved? {
      assert Truthy(certs);
    }
  }

  /**
   * Sending back certification rows as they are stored changes nothing:
   * no attachment is uploaded again and every row is kept as it is.
   */
  lemma ResubmittedCertificationsUnchanged(rows: seq<map<string, Json>>, storage: string -> StorageAnswer)
    requires StorageWellFormed(storage)
    requires forall i :: 0 <= i < |rows| ==> NormalisedCert(rows[i])
    ensures NormaliseAll(seq(|rows|, i requires 0 <= i < |rows| => JObj(rows[i])), storage) == Success(rows)
  {
    var items := seq(|rows|, i requires 0 <= i < |rows| => JObj(rows[i]));
    forall i | 0 <= i < |rows|
      ensures NormaliseCert(items[i], storage) == Success(rows[i])
    {
      assert rows[i]["attachment" := rows[i]["attachment"]] == rows[i];
    }
    var r := NormaliseAll(items, storage);
    assert r.Success?;
    assert r.value == rows;
  }

  /** The Imam document as `update_imam` holds it between `get_doc` and `save`. */
  class ImamDoc {
    var fields: map<string, Json>
    var certifications: seq<map<string, Json>>

    /** `frappe.get_doc("Imam", name)`. */
    constructor Load(r: ImamRecord)
      ensures fields == r.fields && certifications == r.certifications
    {
      fields := r.fields;
      certifications := r.certifications;
    }

    function Snapshot(): ImamRecord
      reads this
    {
      ImamRecord(fields, certifications)
    }

    /** `doc.set("certifications", [])`. */
    method ClearCertifications()
      modifies this
      ensures certifications == [] && fields == old(fields)
    {
      certifications := [];
    }

    /** `doc.append("certifications", cert)`. */
    method AppendCertification(cert: map<string, Json>)
      modifies this
      ensures certifications == old(certifications) + [cert] && fields == old(fields)
    {
      certifications := certifications + [cert];
    }

    /** `doc.update(changes)`: every key of `changes` overwrites or adds a field. */
    method Update(changes: map<string, Json>)
      modifies this
      ensures fields == old(fields) + changes && certifications == old(certifications)
    {
      fields := fields + changes;
    }
  }

  /**
   * The body of the certification loop for one item: the row to append,
   * with its attachment uploaded, emptied or kept, or why the loop stops.
   */
  method NormaliseItem(cert: Json, storage: string -> StorageAnswer)
    returns (r: Result<map<string, Json>, CertFailure>)
    requires StorageWellFormed(storage)
    ensures r == NormaliseCert(cert, storage)
  {
    if !cert.JObj? {
      return Failure(Crashed(NoAttribute(TypeName(cert), "get")));
    }
    var row := cert.fields;
    var attachment := Get(row, "attachment");
    NormaliseAttachmentCases(attachment, storage);
    if Truthy(attachment) {
      if !attachment.JStr? {
        return Failure(Crashed(NoAttribute(TypeName(attachment), "startswith")));
      }
      if StartsWith(attachment.s, "data:") {
        var uploaded := Upload(attachment.s, storage);
        if uploaded.Failure? {
          return Failure(UploadFailed(uploaded.error));
        }
        row := row["attachment" := JStr(uploaded.value)];
      } else {
        assert row["attachment" := attachment] == row;
      }
    } else {
      row := row["attachment" := JNull];
    }
    return Success(row);
  }

  /**
   * The certification loop of `update_imam`: clears the document's rows and
   * appends each item's normalised row in order, stopping at the first item
   * that fails.
   */
  method ReplaceCertifications(doc: ImamDoc, items: seq<Json>, storage: string -> StorageAnswer)
    returns (failure: Option<CertFailure>)
    requires StorageWellFormed(storage)
    modifies doc
    ensures doc.fields == old(doc.fields)
    ensures failure.None? ==> NormaliseAll(items, storage) == Success(doc.certifications)
    ensures failure.Some? ==> NormaliseAll(items, storage) == Failure(failure.value)
  {
    doc.ClearCertifications();
    var i := 0;
    while i < |items|
      invariant 0 <= i <= |items|
      invariant NormaliseAll(items[..i], storage) == Success(doc.certifications)
      invariant doc.fields == old(doc.fields)
    {
      var row := NormaliseItem(items[i], storage);
      if row.Failure? {
        assert items[..i + 1][..i] == items[..i];
        PrefixFailureSticks(items, i + 1, storage);
        return Some(row.error);
      }
      NormaliseAllAppend(items, i, doc.certifications, row.value, storage);
      doc.AppendCertification(row.value);
      i := i + 1;
    }
    assert items[..i] == items;
    return None;
  }

  /** `update_imam`, step by step as the endpoint runs it. */
  method UpdateImam(records: map<string, ImamRecord>, payload: map<string, Json>,
                    storage: string -> StorageAnswer, saveError: Option<SaveRaised>)
    returns (outcome: UpdateOutcome)
    requires StorageWellFormed(storage)
    ensures outcome == UpdateSpec(records, payload, storage, saveError)
  {
    var name := Get(payload, "name");
    var rest := payload - {"name"};
    if !Truthy(name) {
      return Refused(Error("Missing `name` for update", 400, 400, JNull));
    }
    if !name.JStr? || name.s !in records {
      return Refused(Error("Imam not found", 404, 404, JNull));
    }
    var doc := new ImamDoc.Load(records[name.s]);
    var certifications := Get(rest, "certifications");
    assert certifications == Get(payload, "certifications");
    rest := rest - {"certifications"};
    if Truthy(certifications) {
      if !certifications.JArr? {
        return Refused(FailureReply(Crashed(IterationError(certifications))));
      }
      var failure := ReplaceCertifications(doc, certifications.items, storage);
      if failure.Some? {
        return Refused(FailureReply(failure.value));
      }
    }
    doc.Update(rest);
    match saveError {
      case Some(DoesNotExist) =>
        return Refused(Error("Imam not found", 404, 404, JNull));
      case Some(SaveFailed(e)) =>
        return Refused(Error("Failed to update Imam", 500, 500, Description(e)));
      case None =>
    }
    outcome := Saved(name.s, doc.Snapshot());
  }
}
