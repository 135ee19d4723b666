# Skin-lesion classifier: submit-and-render pipeline

A Dafny model of the four pieces that carry the logic of the skin-lesion
classifier web application.

- **Form controller** (`UploadForm.js`, with the `prediction` and `error`
  cells that `App.js` owns): the class `UploadForm.Controller`.
  - `HandleChange` applies one input event to the five-field draft and clears
    both result cells.
  - `handleSubmit` is split at its `await`. `Submit` clears the cells, runs
    the two-stage validation gate (required fields first, then a positive
    age) and either records the gate's message or hands over the request.
    `Settle` records the server's answer and clears `loading`.
    `HandleSubmit` runs the two back to back.
- **Request serialiser** (`predict.js`): the class `Api.FormData` and the
  method `Api.Post`, which append the five fields in order. `Api.Multipart`
  is the function that specifies the resulting body.
- **Route** (`app.py`, the `/predict` handler): the method `Backend.Predict`.
  - `Backend.Receive` says how the multipart parts reach `request.form` and
    `request.files`.
  - `Backend.Extract` builds `meta_input` and reads the image, failing in
    the route's own order.
  - `Backend.ArgMax` is the first maximum.
  - Below 0.5 the label is overridden by "no cancer detected".
  - `Backend.ProbMapping` is the dict comprehension, with Python's dict
    semantics: a key keeps its first position and takes its last value.
  - `Backend.JsonEntries` is the order `jsonify` writes the dict in: Flask's
    JSON provider sorts the keys, so the browser receives the entries in
    ascending key order, not in label order.
- **Renderer** (`Prediction.js`): `Renderer.Render`.
  - It looks up the predicted label in the seven-entry class table, with
    verbatim fallback.
  - The entries are sorted by descending probability with a stable sort
    (`Renderer.SortDesc`). Stability and uniqueness are both proved: any
    stable descending reordering equals it.
  - Each row is relabelled and carries the highlight predicate.

The module `Pipeline` connects the pieces:
- the client sends exactly the keys the route reads;
- a draft accepted by the client's gate reaches the model intact whenever
  Python's `float()` accepts the age;
- the route's success body, as sent, renders one row per class. The top row
  carries the maximum probability and the predicted class's row is
  highlighted. The predicted class is the top row when its maximum is unique;
  on a tie, the top row is the tied class whose key sorts first
  (`Pipeline.TopRowSortsFirst`; `Pipeline.TieExample` is an instance). "no cancer detected" is shown verbatim with no
  class highlighted.

Outside inputs become parameters:
- JavaScript's string-to-number coercion (`toNumber`) and Python's `float()`
  (`pyFloat`) are functions `string -> Option<real>`. `toNumber` is None
  where JavaScript gives NaN, and `pyFloat` is None where `float()` raises.
  The nan and inf that `float()` returns without raising stand as some real,
  because the age goes on only to preprocessing, which is not modelled;
- the model's probability vector is a `seq<real>` and the label classes a
  `seq<string>`;
- the outcome of the HTTP post is `Api.Outcome`.

Files: `common.dfy`, `api.dfy`, `upload_form.dfy`, `backend.dfy`,
`renderer.dfy`, `pipeline.dfy`.

## Model

| member | source | states |
|---|---|---|
| Api.FormData.constructor | frontend/src/api/predict.js:13 | a new FormData holds no entries |
| Api.FormData.Append | frontend/src/api/predict.js:14-18 | appending adds exactly one (name, value) entry after the existing ones |
| Api.ImagePart | frontend/src/api/predict.js:18 | the image field carries a file exactly when the draft holds one, and then that file |
| Api.Multipart | frontend/src/api/predict.js:13-18 | the body has the five names sex, dx_type, localization, age, image in that order; each value is the draft's field unchanged |
| Api.Post | frontend/src/api/predict.js:12-19 | five appends give exactly five entries, and the body is the draft's multipart body |
| UploadForm.DraftExtensionality | frontend/src/components/UploadForm.js:23-29 | a draft is determined by its five fields |
| UploadForm.ApplyChange | frontend/src/components/UploadForm.js:38-50 | a text change sets exactly that field to the raw value; an image change stores `files[0]` or undefined; every other field is unchanged |
| UploadForm.ApplyChangeUnique | frontend/src/components/UploadForm.js:38-50 | the updated draft is the only one holding the new value in the changed field and the old values in every other field |
| UploadForm.Gate | frontend/src/components/UploadForm.js:60-75 | "All fields are required." iff some field is falsy; "Please enter a valid age." iff all are filled and the age coerces to NaN or to a number at most 0 (the condition of line 71, written out); no message iff both checks pass |
| UploadForm.Complete | frontend/src/components/UploadForm.js:60-66 | the draft is complete iff each of the five fields is truthy |
| UploadForm.FailureMessage | frontend/src/components/UploadForm.js:80-83 | the message is never empty: the server's error text when present and non-empty, else the generic failure text |
| UploadForm.Settled | frontend/src/components/UploadForm.js:77-84 | exactly one result cell is set: the data on success, the failure message on rejection |
| UploadForm.Controller.constructor | frontend/src/components/UploadForm.js:23-32 | empty draft, image null, no preview, not loading, both result cells null |
| UploadForm.Controller.HandleChange | frontend/src/components/UploadForm.js:34-51 | both result cells become null; the draft is updated by the change; the preview is cleared iff an image change selects no file; `loading` is unchanged |
| UploadForm.Controller.Submit | frontend/src/components/UploadForm.js:53-77 | no request iff the gate fails, and then `error` is the gate's message and `loading` is false; otherwise the request is the draft's multipart body, both cells are null and `loading` is true; the draft is unchanged |
| UploadForm.Controller.Settle | frontend/src/components/UploadForm.js:77-85 | `loading` becomes false and the cells hold the settled outcome; the draft is unchanged |
| UploadForm.Controller.HandleSubmit | frontend/src/components/UploadForm.js:53-86 | at most one request, made exactly when the gate passes; `loading` is false at the end; the cells hold the gate's message or the settled outcome, never both; the draft is unchanged |
| Backend.Receive | backend/app.py:38-43 | a body with no file parts gives an empty `request.files`, and one with no string parts an empty `request.form` |
| Backend.ReceiveSources | backend/app.py:38-43 | every key in `request.form` comes from a string part of that name, and every key in `request.files` from a file part |
| Backend.ReceiveFirstText | backend/app.py:38-41 | `request.form[k]` is the value of the first string part named k |
| Backend.ReceiveFirstBlob | backend/app.py:43 | `request.files[k]` is the first file part named k |
| Backend.Extract | backend/app.py:37-43 | success iff the four form keys and the image are present and `float()` accepts the age, and then the values are the request's; the first missing key in reading order is reported; an age `float()` refuses is reported before a missing image |
| Backend.ArgMax | backend/app.py:50 | the result is the first index of the maximum |
| Backend.FirstMaxLeast | backend/app.py:50 | no index before the first maximum holds a value as large as it |
| Backend.FirstMaxUnique | backend/app.py:50 | the first index of the maximum is unique |
| Backend.DictSet | backend/app.py:55 | `d[k] = v` adds k to the keys; a new key goes after the existing ones |
| Backend.DictSetLookup | backend/app.py:55 | after `d[k] = v`, looking up k gives v and every other key reads as before |
| Backend.DictSetDistinct | backend/app.py:55 | a dict never holds a key twice |
| Backend.ProbMapping | backend/app.py:55 | the map's keys are exactly the label classes |
| Backend.ProbMappingKeysDistinct | backend/app.py:55 | each label appears once in the map |
| Backend.ProbMappingDistinct | backend/app.py:55 | with distinct labels, entry i is (label i, probability i): one entry per class, in label order |
| Backend.ProbMappingLastWins | backend/app.py:55 | a repeated label maps to the probability at its last index |
| Backend.Predict | backend/app.py:36-61 | status 400 with the extraction error exactly when extraction fails; otherwise 200 with `labels[ArgMax(probs)]`, or "no cancer detected" when that probability is below 0.5, and the probability map; the same label for every first-maximum index |
| Backend.KeyBelow | backend/app.py:56-59 | Python's string order, used to sort the keys, is strict: a key is never below itself |
| Backend.KeyBelowTransitive | backend/app.py:56-59 | the string order is transitive |
| Backend.KeyBelowTotal | backend/app.py:56-59 | of two distinct keys, one is below the other |
| Backend.InsertByKey | backend/app.py:56-59 | inserting one entry into the key-sorted list lengthens it by one |
| Backend.InsertByKeyPermutation | backend/app.py:56-59 | inserting adds that entry and loses none |
| Backend.InsertByKeyAscending | backend/app.py:56-59 | inserting a key not yet present keeps the keys in strictly ascending order |
| Backend.JsonEntries | backend/app.py:56-59 | the serialised `class_probabilities` has as many entries as the dict |
| Backend.JsonEntriesPermutation | backend/app.py:56-59 | the serialised body carries exactly the dict's entries |
| Backend.JsonEntriesAscending | backend/app.py:56-59 | the serialised body lists the dict's keys in strictly ascending order |
| Renderer.Label | frontend/src/components/Prediction.js:41 | the label shown (here and, for the predicted class, at line 20) is the key itself or a full name; a known key gives its full name, which is non-empty, and any other text, full names included, is shown verbatim |
| Renderer.LabelInjective | frontend/src/components/Prediction.js:4-12 | distinct known abbreviations have distinct full names |
| Renderer.LabelVerbatim | frontend/src/components/Prediction.js:20 | a text that is neither an abbreviation nor a full name is shown verbatim, and only it shares its label |
| Renderer.Insert | frontend/src/components/Prediction.js:39 | inserting one entry lengthens the sequence by one |
| Renderer.InsertPermutation | frontend/src/components/Prediction.js:39 | inserting adds that entry and loses none |
| Renderer.InsertSorted | frontend/src/components/Prediction.js:39 | inserting into a descending sequence keeps it descending |
| Renderer.SortDesc | frontend/src/components/Prediction.js:38-39 | the sorted entries have the same length and are in non-increasing probability order |
| Renderer.SortDescPermutation | frontend/src/components/Prediction.js:38-39 | the sort is a permutation of the entries |
| Renderer.InsertStable | frontend/src/components/Prediction.js:39 | insertion keeps the new entry ahead of entries of equal probability |
| Renderer.SortDescStable | frontend/src/components/Prediction.js:39 | entries of equal probability keep their original order |
| Renderer.SortDescTop | frontend/src/components/Prediction.js:38-39 | the first row after sorting is one of the entries, and no entry has a higher probability |
| Renderer.SortedByFiltersUnique | frontend/src/components/Prediction.js:39 | two descending sequences with the same entries of each probability, in the same order, are equal |
| Renderer.SortDescUnique | frontend/src/components/Prediction.js:39 | any stable descending reordering of the entries is the sort's result |
| Renderer.SortDescHead | frontend/src/components/Prediction.js:38-39 | the first sorted entry is the one at the first maximum |
| Renderer.Highlight | frontend/src/components/Prediction.js:43-45 | the predicted class's own row is always highlighted |
| Renderer.ToRow | frontend/src/components/Prediction.js:40-51 | a row keeps its entry's key and probability, shows the full name or the key, and is highlighted when its key is the predicted class |
| Renderer.HighlightKnown | frontend/src/components/Prediction.js:43-45 | for a known predicted class, exactly its own row and a row keyed by its full name are highlighted |
| Renderer.HighlightUnknown | frontend/src/components/Prediction.js:43-45 | for a predicted class that is neither a key nor a full name, only a row with that exact key is highlighted |
| Renderer.Rows | frontend/src/components/Prediction.js:40-52 | one row per entry, in the same order |
| Renderer.Render | frontend/src/components/Prediction.js:14-52 | nothing without data; otherwise the mapped predicted label, and rows that permute the entries in non-increasing order, each with its mapped label and the highlight predicate |
| Renderer.RenderStable | frontend/src/components/Prediction.js:38-39 | the rows keep tied entries in their original order and are exactly the stable sort of the entries |
| Renderer.SortExample | frontend/src/components/Prediction.js:38-39 | {mel: 0.1, nv: 0.7, bcc: 0.2} is listed as nv, bcc, mel |
| Renderer.ExampleRows | frontend/src/components/Prediction.js:41-45 | with nv predicted: nv shows "Melanocytic Nevus" highlighted, and bcc and mel show their full names unhighlighted |
| Renderer.RenderExample | frontend/src/components/Prediction.js:14-52 | the whole view for that example: the label "Melanocytic Nevus" and the three rows in order, only nv highlighted |
| Pipeline.WireNames | frontend/src/api/predict.js:14-18 | the names sent are the four form keys the route reads, then the file key |
| Pipeline.ReceiveMultipart | backend/app.py:38-43 | the route sees the four draft strings unchanged, and the image in `request.files` exactly when the draft holds a file |
| Pipeline.ReceiveFields | backend/app.py:38-43 | for the five parts the client sends, the route reads each string field unchanged, and finds `image` in `request.files` exactly when that part is a file |
| Pipeline.WireRoundTrip | backend/app.py:37-43 | reading the client's body fails on the age when `float()` refuses it, then on a missing file; otherwise it yields the draft's values |
| Pipeline.AcceptedDraftReachesModel | frontend/src/components/UploadForm.js:60-77 | a draft that passes the gate, with an age `float()` accepts, reaches the model intact |
| Pipeline.NoCancerIsUnmapped | backend/app.py:54 | "no cancer detected" is neither an abbreviation nor a full name in the class table |
| Pipeline.WireEntries | backend/app.py:55-59 | the entries sent are the label classes with their probabilities, one each, with the keys ascending |
| Pipeline.RouteRows | frontend/src/components/Prediction.js:38-40 | the sent body renders as one row per label class, and the rows are the stable descending sort of the key-sorted entries |
| Pipeline.MappingMembers | backend/app.py:55 | with distinct labels, the dict has one entry per label, and its entries are exactly the label-probability pairs |
| Pipeline.MappingHead | frontend/src/components/Prediction.js:38-39 | the top row holds the maximum probability; when the maximum is unique, it is the predicted class's entry |
| Pipeline.TopRowSortsFirst | frontend/src/components/Prediction.js:38-39 | the top row holds the maximum probability, and its key sorts at or before that of every class holding the maximum |
| Pipeline.RenderConfidentPrediction | frontend/src/components/Prediction.js:38-45 | for a confident prediction: the top row holds its probability; the predicted class's row is highlighted; with a unique maximum, that row is the top one |
| Pipeline.RenderNoCancer | backend/app.py:53-54 | for "no cancer detected", the label shows verbatim and no class row is highlighted |
| Pipeline.TieExample | backend/app.py:50-59 | labels nv, mel, both at 0.5: the route predicts nv, but the body lists mel first and the top row is mel, unhighlighted |

## Left out

- The preview read (`FileReader`, frontend/src/components/UploadForm.js:42-44) is asynchronous. Only its clearing, when no file is selected, is modelled. The code has no guard against a stale read completing after a newer image was selected.
- UploadForm.Controller.HandleSubmit: requires `!loading`, because the submit button is disabled while loading (frontend/src/components/UploadForm.js:163). `Submit` alone has no such requirement, so a second click before the button is disabled restarts the gate; what then happens to the two pending posts is not modelled.
- UploadForm.Controller.HandleSubmit: assumes no other event runs while the post is pending. Edits during the pending post go through `HandleChange`. In the split form (`Submit`, then `HandleChange`, then `Settle`), `Settle` requires `loading` and Valid, and `HandleChange` keeps both.
- React's batching of state updates and re-rendering are not modelled. Each setter is an immediate field assignment.
- The HTTP transport (axios, CORS, the URL) is not modelled. The post is the abstract `Api.Outcome`: resolved with `response.data`, or rejected with the server's `error` string when there is one. A non-string `error` value in a rejected body is not modelled.
- JavaScript's string-to-number coercion in `isNaN(form.age)` and `form.age <= 0` is the parameter `toNumber`. Python's `float()` is the parameter `pyFloat`. Their parsing rules are not modelled.
- Backend.Predict: the text of `str(e)` is not modelled; the error body carries the cause (missing key or refused age). Errors raised after extraction are not modelled: preprocessing (backend/utils.py is not part of this model) and inference are assumed to succeed.
- Backend.Predict: the forward pass and softmax are replaced by the probability vector, which is an input. The route's argmax runs over the logits. Softmax preserves their order, so the model takes the first maximum of the probabilities; ties introduced by floating-point rounding are not modelled.
- Probabilities are reals: float32 values and the `float(prob)` conversion are not modelled. The same holds for the percentage formatting `(prob * 100).toFixed(2)` (frontend/src/components/Prediction.js:49).
- `jsonify` is modelled only through its key sorting. It is taken to use Flask's default JSON provider, which sorts keys. JSON number formatting is not modelled, and parsing the body in the browser is taken to keep the key order.
- The label classes are taken to be distinct, as a label encoder's classes are. The Pipeline lemmas about the rendered table require distinct labels. With a repeated label, the dict keeps the probability at its last index (`Backend.ProbMappingLastWins`): labels ["a", "a"] with probabilities [0.9, 0.1] show "a" at 10%. The table for that case is not characterised.
- `Object.entries` puts integer-like keys first. This is not modelled, because the class abbreviations are not numeric.
- The class-table lookup is a Dafny map of the seven entries. JavaScript prototype keys such as "constructor", which a plain object lookup would also find, are not modelled.
- Artifact loading, Flask setup and `app.run` are not modelled (backend/app.py:14-32, 63-64).
- JSX markup, option lists, CSS and the HTML `required` attributes are not modelled.
- App.js and ErrorAlert.js are not part of this model beyond App's two state cells, which are fields of the controller.
