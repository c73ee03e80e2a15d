# Faithful registration: Imam endpoints and e-mail one-time passwords

This project models in Dafny the two parts of the faithful-registration
backend that do more than pass data to the framework.

**The Imam endpoints** (`faithful_registration/api/imam.py`):
- the JSON envelope every endpoint answers with;
- the list filters of the Imam listing;
- the argument checks of register, get and delete;
- the certification rewrite of `update_imam`, where each attachment given as
  a `data:` URL is uploaded and replaced by the stored file's URL;
- the row-by-row bookkeeping of the spreadsheet import;
- the data-URL parse that names the stored file.

**The e-mail flows** (`faithful_registration/api/auth.py`):
- the one-time-password cache, which holds a code alive for 300 seconds and a
  cooldown alive for 60 seconds;
- the validation and normalisation of the password-reset request.

Each module matches one part of the code:

| module | part of the code |
|---|---|
| `Wrappers` | The `Option` and `Result` types. |
| `JsonValue` | JSON values and Python truthiness. |
| `Text` | Python's `strip`, ASCII `lower`, and `str` of a natural number. |
| `Envelope` | `_response` and `_error`. |
| `ImamRequests` | `get_all_imams` filters, `register_imam`, `get_imam` target selection, and `delete_imam`. |
| `DataUrl` | `save_base64_file`. |
| `ImamUpdate` | `update_imam`. The document the endpoint edits is a class whose methods replace the certification rows in place. |
| `ImamBulk` | `bulk_upload_imams`. A method runs the loop, and a function states what the loop computes. |
| `OtpAuth` | `send_otp` and `verify_otp`. The cache is a class with two maps, and its methods are proved against the step functions `SendStep` and `VerifyStep`. |
| `PasswordReset` | `forgot_password`. |

Whatever the framework or a library does becomes an input of the model:
- the database content;
- the outcome of an insert, a save or a delete;
- the spreadsheet parser's rows;
- base64 decoding, file storage and the `uuid` token;
- the random OTP draw;
- mail delivery;
- the clock;
- the request id and the timestamp.

A request argument that may be `None` is modelled as a string, with `""`
standing for the absent value; both are falsy in Python.

`imam.py` has no duplicate check and no required-column check in the
spreadsheet import, produces no downloadable failure report, and applies no
size or MIME allowlist to uploaded files. The model follows the code:
- every row goes straight to insert;
- only the insert's own exception marks a row as failed;
- any MIME type and any payload size is accepted.

## Model

| member | source | states |
|---|---|---|
| Envelope.Respond | faithful_registration/api/imam.py:15-31 | The body's `status` is "success" exactly when the HTTP status is below 400, and "error" exactly when it is 400 or more. `data` and `message` are always present. `code`, `errors` and `meta` are present exactly when their argument is truthy, and then hold it. No other key appears. |
| Envelope.Error | faithful_registration/api/imam.py:34-37 | An error envelope has null data and no meta. The numeric code is echoed exactly when it is non-zero. `errors` appears exactly when truthy. |
| Envelope.SuccessEnvelope | faithful_registration/api/imam.py:15-26 | A default 200 envelope has exactly the keys data, status and message, and reports success. |
| ImamRequests.ListFilters | faithful_registration/api/imam.py:57-65 | A key is a filter exactly when it is in the form, is neither `cmd` nor `data`, and has a truthy value. Its value is the form's value. An empty result is None, never an empty map. |
| ImamRequests.ListFiltersIdempotent | faithful_registration/api/imam.py:57-61 | Filtering an already filtered form gives the same filters. |
| ImamRequests.ListFiltersIgnoreReserved | faithful_registration/api/imam.py:57-61 | Whatever the `cmd` and `data` entries hold, the filters are those of the form without them. |
| ImamRequests.FirstMissing | faithful_registration/api/imam.py:240-242 | The result is the position of the first field the payload lacks (absent or falsy), and every earlier field is present. None means every field is present. |
| ImamRequests.NewImamDoc | faithful_registration/api/imam.py:244 | The inserted document has the payload's keys plus `doctype`. Every payload value is kept. `doctype` is "Imam" unless the payload overrides it. |
| ImamRequests.RegisterImam | faithful_registration/api/imam.py:237-250 | An insert happens exactly when `faithful`, `mosque_assigned` and `date_appointed` are all present and the insert does not raise. The inserted document is the payload plus `doctype`, every payload value kept. A refusal is a 400 naming a missing field, or the 500 "Failed to create Imam" carrying the insert's error. |
| ImamRequests.RegisterChecksRequiredFields | faithful_registration/api/imam.py:239-250 | `faithful`, `mosque_assigned` and `date_appointed` are checked in that order. The first missing one is named in a 400 and nothing is inserted. An insert happens exactly when all three are present and the insert does not raise, and it inserts the payload under doctype Imam. |
| ImamRequests.GetImamTarget | faithful_registration/api/imam.py:154-165 | With both `name` and `faithful` absent, the reply is the error envelope 400 "Provide `name` or `faithful`", and only then is it a 400. A given `name` is used as it is. Otherwise the record is the first Imam of the faithful, or, when there is none, the 404 envelope "No Imam found for faithful <faithful>". |
| ImamRequests.DeleteImam | faithful_registration/api/imam.py:301-314 | A missing name is the 400 envelope "Provide `name` to delete". An unknown name is the 404 "Imam <name> not found". A raising delete is the 500 "Failed to delete Imam" with the exception text as description. None of these changes the records. A successful delete answers 200 "Imam deleted" with the name, and removes exactly that record. |
| ImamRequests.DeleteTwiceIsNotFound | faithful_registration/api/imam.py:306-310 | Deleting the same name again after a successful delete is the 404 "Imam <name> not found", and it changes nothing. |
| DataUrl.FindMarker | faithful_registration/api/imam.py:395 | The lazy `(.*?);base64,` step returns the first `;base64,` position reachable without crossing a newline, or reports that none is reachable. |
| DataUrl.LineEnd | faithful_registration/api/imam.py:395 | The greedy `(.*)` step stops at the first newline or at the end of the text. |
| DataUrl.ParseDataUrl | faithful_registration/api/imam.py:395-399 | A match starts with `data:`. Its MIME group is newline-free and ends at the first reachable `;base64,`. Its payload runs to the first newline or the end. No match means no `data:` prefix or no reachable marker. |
| DataUrl.MarkerOnlyAtJoin | faithful_registration/api/imam.py:395 | In `mime + ";base64," + rest`, where `mime` does not contain the marker, the marker cannot start inside `mime`. |
| DataUrl.ParseComposed | faithful_registration/api/imam.py:395-399 | Round trip: parsing `"data:" + mime + ";base64," + payload` gives back mime and payload. This holds when mime is newline-free and marker-free and payload is newline-free, and any text after a newline is ignored. |
| DataUrl.LastSegment | faithful_registration/api/imam.py:400 | `split("/")[-1]` is the suffix after the last '/' and contains no '/'. |
| DataUrl.Extension | faithful_registration/api/imam.py:400 | The extension is the last segment of the MIME type, or "bin" when that is empty. It is never empty and never contains '/'. |
| DataUrl.LastSegmentAfterSlash | faithful_registration/api/imam.py:400 | Text ending in '/' followed by a slash-free segment has that segment as its last segment. |
| DataUrl.ExtensionOfSubtype | faithful_registration/api/imam.py:400 | `type/subtype` yields the subtype. A MIME type ending in '/' yields "bin". |
| DataUrl.SaveBase64File | faithful_registration/api/imam.py:393-424 | A text that does not match fails with "Invalid base64 format". A decoding failure is passed on, and so is a storage failure after a good decode, each with its own message. Otherwise the URL is `/files/imam_cert_<token>.<extension>`. |
| DataUrl.FileNameShape | faithful_registration/api/imam.py:402 | The file name is `imam_cert_`, the 8 hex digits, '.', and the extension. For a slash-free extension, which `Extension` always gives, the name holds no '/', so the file lands directly in the files folder. |
| ImamUpdate.Upload | faithful_registration/api/imam.py:272-275 | A successful upload yields a URL under `/files/`. |
| ImamUpdate.FileUrlIsNotDataUrl | faithful_registration/api/imam.py:272-275 | A stored file's URL is non-empty and is not a data URL. |
| ImamUpdate.NormaliseAttachment | faithful_registration/api/imam.py:270-284 | A normalised attachment is null, or a non-empty text that is not a data URL. |
| ImamUpdate.NormaliseAttachmentCases | faithful_registration/api/imam.py:270-284 | A falsy attachment becomes null. A data URL becomes the uploaded URL, or stops with the upload's error. Any other text is kept. A truthy non-text raises Python's AttributeError for `startswith`. |
| ImamUpdate.NormaliseCert | faithful_registration/api/imam.py:269-286 | A row that is not a dict raises the AttributeError for `get`. Otherwise the appended row keeps every other column, gains `attachment` if it lacked one, and its attachment is the normalised one. |
| ImamUpdate.NormaliseItem | faithful_registration/api/imam.py:270-286 | The step-by-step handling of one certification row gives exactly `NormaliseCert` of that row. |
| ImamUpdate.NormaliseAll | faithful_registration/api/imam.py:265-286 | The loop succeeds exactly when every item does. It then yields one row per item, in order. Otherwise it yields the error of the first failing item. |
| ImamUpdate.PrefixFailureSticks | faithful_registration/api/imam.py:269-282 | A failure among the first k items is the failure of the whole loop: the items after it are never processed. |
| ImamUpdate.NewCertifications | faithful_registration/api/imam.py:265-270 | An absent or falsy list keeps the current rows. A truthy list gives `NormaliseAll` of its items, one row per item. Any other truthy value crashes with Python's text for iterating it: a string or a dict yields strings, and their `get` raises AttributeError. Anything else is not iterable. |
| ImamUpdate.FailureReply | faithful_registration/api/imam.py:276-297 | A failed upload is the 400 "Attachment upload failed". Any other exception is the 500 "Failed to update Imam". Both carry the error's text as the description. |
| ImamUpdate.UpdateSpec | faithful_registration/api/imam.py:256-297 | A missing name is a 400 before any lookup, and an unknown name is a 404 "Imam not found". For a known name, the record is saved exactly when the certifications succeed and neither `doc.update` nor `doc.save` raises. A failed certification gives that failure's reply. A DoesNotExistError from the update or the save is caught by the outer handler and gets the 404 "Imam not found". Any other exception there gives the 500 "Failed to update Imam" with its text. On a save, the record is the stored one with the other payload fields merged in, and its rows are the new certifications. An absent or empty list leaves the rows untouched. A non-empty list replaces them with one normalised row per item, in order. |
| ImamUpdate.Persist | faithful_registration/api/imam.py:288-290 | A refusal writes nothing. A save replaces exactly the named record. |
| ImamUpdate.FailedUploadSavesNothing | faithful_registration/api/imam.py:270-290 | If any certification's data URL fails to upload, the update is refused and the stored records are unchanged. |
| ImamUpdate.ResubmittedCertificationsUnchanged | faithful_registration/api/imam.py:269-286 | Sending back the rows as stored uploads nothing and keeps every row as it is. |
| ImamUpdate.ImamDoc.Load | faithful_registration/api/imam.py:262 | The document holds the stored record's fields and certification rows. |
| ImamUpdate.ImamDoc.ClearCertifications | faithful_registration/api/imam.py:267 | Empties the certification rows and keeps the fields. |
| ImamUpdate.ImamDoc.AppendCertification | faithful_registration/api/imam.py:286 | Appends one row at the end and keeps the fields. |
| ImamUpdate.ImamDoc.Update | faithful_registration/api/imam.py:289 | Each key of the changes overwrites or adds a field. The rows are kept. |
| ImamUpdate.ReplaceCertifications | faithful_registration/api/imam.py:264-286 | The imperative loop leaves the document's rows equal to `NormaliseAll` of the items, or returns the same failure that `NormaliseAll` gives. The fields are untouched. |
| ImamUpdate.UpdateImam | faithful_registration/api/imam.py:254-297 | The step-by-step endpoint's outcome equals `UpdateSpec`, including the 404 for a DoesNotExistError raised by the save. |
| ImamBulk.RowDoc | faithful_registration/api/imam.py:333-336 | The inserted document's keys are the row's keys without `name`, plus `doctype`. Every other cell is kept, and `doctype` is "Imam" unless the row has its own `doctype` column. |
| ImamBulk.Run | faithful_registration/api/imam.py:330-342 | Each row counts exactly once, so `created + failed` is the number of rows. There is one error entry per failed row and one inserted document per created row. |
| ImamBulk.Step | faithful_registration/api/imam.py:335-342 | One row adds exactly one to `created + failed` and keeps both list lengths in step with their counters. |
| ImamBulk.ErrorRowsInOrder | faithful_registration/api/imam.py:332-342 | Error entries carry spreadsheet line numbers (position + 2) within the rows run over, strictly increasing, so they are in row order. |
| ImamBulk.ErrorListedIffInsertFailed | faithful_registration/api/imam.py:332-342 | A row appears in the error list exactly when its insert failed, and then with that insert's message. |
| ImamBulk.RunInsertsSucceeded | faithful_registration/api/imam.py:332-339 | The documents inserted are exactly those built by `RowDoc` from the rows whose insert does not raise, in row order. |
| ImamBulk.InsertRow | faithful_registration/api/imam.py:333-342 | One pass of the loop body moves the counters and lists exactly as one `Step` of `Run`. |
| ImamBulk.RunSplits | faithful_registration/api/imam.py:332-342 | A failure never stops the loop: the tally over `a + b` is the tally over `a` followed by that over `b`, with counters added and lists concatenated. |
| ImamBulk.StepAfterCombine | faithful_registration/api/imam.py:335-342 | One row's bookkeeping after two joined stretches equals that bookkeeping applied to the second stretch. |
| ImamBulk.ErrorsJson | faithful_registration/api/imam.py:342-345 | One JSON entry per error, in order. Each entry holds that error's spreadsheet line under `row` and its message under `error`. |
| ImamBulk.SummaryReply | faithful_registration/api/imam.py:330-345 | The 200 reply has exactly the keys data, status and message: "success", "Bulk upload finished", and data holding the summary (`total`, `created`, `failed`) and the error list. |
| ImamBulk.BulkUploadImams | faithful_registration/api/imam.py:322-350 | No file (or one with an empty file name) is a 400 "No file uploaded under 'file'". An unreadable sheet is a 500. Otherwise the loop's reply is the summary of `Run` over all rows with `total` = number of rows, and the documents inserted are `Run`'s, in row order. |
| OtpAuth.ExpiryIsFinal | faithful_registration/api/auth.py:58 | With no write in between, a code visible at a later instant was visible, with the same value, at every earlier instant. Once a code reads as missing, it stays missing until the next write. |
| OtpAuth.SendStep | faithful_registration/api/auth.py:20-54 | During the cooldown, the reply is "error" with the cooldown message and the state is unchanged. Otherwise, the fresh code replaces the old one, a cooldown starts, and other addresses keep their entries. The reply is then "success" "OTP sent successfully." when the mail goes out, and "error" "Error sending OTP: " + the error when it does not. |
| OtpAuth.VerifyStep | faithful_registration/api/auth.py:56-78 | Success exactly when the stripped submission equals the live, non-empty code, and a match deletes only that code. Every other reply has status "error" and leaves the state unchanged. With no live code, it is "OTP expired or not found." (and only then). A live code that differs from the stripped submission gives "Invalid OTP.". |
| OtpAuth.DrawnCodeShape | faithful_registration/api/auth.py:29 | A code drawn from [100000, 999999] is written as exactly six digits that read back as the draw. |
| OtpAuth.ResendInsideCooldownRefused | faithful_registration/api/auth.py:22-31 | Within 60 seconds of an accepted request, a new request is refused and changes nothing. |
| OtpAuth.ResendAfterCooldownReplaces | faithful_registration/api/auth.py:22-31 | After the cooldown, a new request overwrites the previous code. |
| OtpAuth.MailFailureStillStores | faithful_registration/api/auth.py:30-54 | The cache after a failed delivery equals the cache after a successful one. |
| OtpAuth.SendIsolatesAddresses | faithful_registration/api/auth.py:22-31 | A request for one address leaves other addresses' codes and cooldowns as they were. |
| OtpAuth.SentCodeVerifies | faithful_registration/api/auth.py:56-78 | The code just sent verifies within its 300-second lifetime, even with surrounding whitespace. |
| OtpAuth.CodeExpires | faithful_registration/api/auth.py:58-64 | After its lifetime, with no new request, the code reads as expired. |
| OtpAuth.VerifiedCodeIsConsumed | faithful_registration/api/auth.py:73-78 | After a successful verification, every later attempt reads "OTP expired or not found.". |
| OtpAuth.FailedAttemptIsForgotten | faithful_registration/api/auth.py:66-70 | A mismatch keeps the code: any later attempt behaves as if the failed one had not happened. |
| OtpAuth.SendPreservesValid | faithful_registration/api/auth.py:29-31 | A request keeps every stored code six digits long, because the new code is a drawn one. |
| OtpAuth.VerifyPreservesValid | faithful_registration/api/auth.py:66-73 | A verification keeps every stored code six digits long, because it only ever deletes a code. |
| OtpAuth.OtpCache.SendOtp | faithful_registration/api/auth.py:20-54 | The cache object's new state and reply are those of `SendStep`. It keeps every stored code six digits long. |
| OtpAuth.OtpCache.VerifyOtp | faithful_registration/api/auth.py:56-78 | The cache object's new state and reply are those of `VerifyStep`. It keeps every stored code six digits long. |
| PasswordReset.NormaliseEmail | faithful_registration/api/auth.py:129 | The looked-up address has no ASCII upper case, and it is empty exactly when the input is all whitespace. With the ASCII-only lowering of `Text.Lower` (see "Left out"), it is no longer than the input. |
| PasswordReset.NormaliseEmailIdempotent | faithful_registration/api/auth.py:129 | Normalising twice equals normalising once. |
| PasswordReset.ForgotPassword | faithful_registration/api/auth.py:116-191 | An empty address is the 400 "Validation failed." with "Missing required field: 'email'" as description. An unknown normalised address is the 404 "User not found." with the description "No user exists with email '<address>'.". A known one is the 200 "Password reset link sent to email." echoing the normalised address, unless the reset raises. A raising reset gives the 400 "Validation failed." for a validation error, and the 500 "Failed to send password reset link." for anything else, with the exception text as description. Every reply carries the request id and the timestamp, and repeats its status as `code`. |
| PasswordReset.ResubmitNormalisedSameReply | faithful_registration/api/auth.py:126-132 | Resubmitting the address as the reply echoed it gives the same reply. |
| PasswordReset.BlankEmailLookedUpAsEmpty | faithful_registration/api/auth.py:126-139 | An all-whitespace address is not "missing": it is looked up as the empty address. When no user has the empty address, it gets a 404 naming ''. |
| PasswordReset.Meta | faithful_registration/api/auth.py:141-144 | The `meta` object holds exactly the request id and the timestamp, and is truthy. |
| PasswordReset.FailureReply | faithful_registration/api/auth.py:133-145 | An error reply has the given HTTP status and repeats it as `code`. It has null data, status "error", the message, the description under `errors`, and the meta. |
| PasswordReset.SuccessReply | faithful_registration/api/auth.py:150-159 | The success reply is a 200 with code 200. Its data holds the e-mail address, and it has status "success", the message "Password reset link sent to email." and the meta, with no `errors`. |
| PasswordReset.FailureFollowsEnvelope | faithful_registration/api/auth.py:161-191 | The error bodies equal the Imam envelope with the status as `code`. |
| PasswordReset.SuccessFollowsEnvelope | faithful_registration/api/auth.py:150-159 | The success body equals the Imam envelope with code 200 and no `errors`. |
| Text.Strip | faithful_registration/api/auth.py:66 | The result has no whitespace at either end, and is empty exactly when the input is all whitespace. |
| Text.StripPadded | faithful_registration/api/auth.py:66 | Stripping whitespace padding around a text with non-space ends gives that text back. |
| Text.StripIdempotent | faithful_registration/api/auth.py:129 | Stripping twice equals stripping once. |
| Text.Lower | faithful_registration/api/auth.py:129 | `lower` maps each character on its own and keeps the length. |
| Text.LowerIdempotent | faithful_registration/api/auth.py:129 | Lowering leaves no ASCII capitals, so lowering twice equals lowering once. |
| Text.DecimalRoundTrip | faithful_registration/api/auth.py:29 | `str(n)` reads back as n. |
| Text.DecimalLength | faithful_registration/api/auth.py:29 | `str(n)` has k digits when 10^(k-1) ≤ n < 10^k. |

## Left out

- Floating-point cells and values: JSON numbers are integers, so NaN cells from the spreadsheet parser and float truthiness are not modelled.
- Text.Lower: lower-cases ASCII letters only. Python's `str.lower` also maps non-ASCII capitals, and can change the length ('İ' becomes two characters).
- PasswordReset.NormaliseEmail: its length bound relies on that ASCII-only lowering. With Python's full `lower`, the looked-up address can be longer than the input.
- ImamUpdate.UpdateSpec: a `name` that is not text is treated as "Imam not found". The framework's own handling of such a value is not part of this model.
- Request bodies: the endpoints read `request.get_json().get("data", {})`. The model takes that `data` object directly, so a body that is not JSON is not modelled. Nor is a `data` member that is null or not an object: `payload.get` or `payload.pop` then raises outside the `try` (imam.py:239-241, 256-257), and the framework answers.
- The read views are not modelled. This covers `get_all_imams`, `get_imam`, `get_imams_by_mosque`, and the `get_imam` reply after a register or update: they only copy fields from the database. `ImamRequests.GetImamTarget` keeps only the choice of record. The reply of a successful register or update is that read (imam.py:247, 291), so an exception it raises is not modelled either, including the DoesNotExistError that imam.py:293-294 would answer with a 404.
- `reassign_imam`, `login_user`, the CORS headers of `cors_response`, and the other API files (faithful, mosque, household, hooks) are framework writes or configuration and are not modelled.
- Cache expiry: an explicit clock stands for the cache's TTLs, and calls are single-threaded. Concurrent requests racing on the same key are not modelled.
- ImamUpdate.UpdateSpec: when a later item or the save fails, the uploads of earlier certifications are kept. Their files stay on disk, and so do the File records that `save_base64_file` inserts (imam.py:408-418). Only the Imam records are modelled, not the File doctype or the files folder.
- ImamUpdate.Upload: the storage outcome is a function of the attachment text, so two certifications with the same data URL get the same token and URL. `uuid4` (imam.py:402) gives each upload its own file name.
- Inputs instead of code:
  - the spreadsheet parser (pandas);
  - base64 decoding;
  - file writing and the File record;
  - the `uuid` token;
  - the `random` draw;
  - `frappe.sendmail`;
  - `reset_password`.

  Their outcomes are inputs, so their internals are not modelled.
- Translation with `_()` is modelled as the identity.
- Error logging with `frappe.log_error` has no effect on replies or state, so it is not modelled.
- ImamBulk.Run: numbers rows by their position in the sheet. This equals the DataFrame index pandas gives a freshly read sheet.
