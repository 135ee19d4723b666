/** The request serialiser of frontend/src/api/predict.js. */
module Api {
  import opened Common

  /** How the awaited `axios.post` settles: resolved with `response.data`,
      or rejected, carrying `response.data.error` when the server sent one. */
  datatype Outcome = Resolved(data: PredictionResult) | Rejected(serverError: Option<string>)

  /** The multipart field names, in the order they are appended. */
  const FieldNames: seq<string> := ["sex", "dx_type", "localization", "age", "image"]

  /** The browser's FormData buffer: an ordered list of named values. */
  class FormData {
    var entries: seq<Entry>

    constructor ()
      ensures entries == []
    {
      entries := [];
    }

    /** `formData.append(name, value)`: adds one field after the others. */
    method Append(name: string, value: Part)
      modifies this
      ensures entries == old(entries) + [(name, value)]
    {
      entries := entries + [(name, value)];
    }
  }

  /** The value FormData stores for the image cell: the file itself, or the
      string conversion of `null` / `undefined` when no file is held. */
  function ImagePart(cell: ImageCell): (p: Part)
    ensures p.Blob? <==> cell.Selected?
    ensures cell.Selected? ==> p.file == cell.file
  {
    match cell
    case Null => Text("null")
    case Undefined => Text("undefined")
    case Selected(f) => Blob(f)
  }

  /** The request body `predict` sends for a draft. */
  function Multipart(form: Draft): (r: seq<Entry>)
    ensures Names(r) == FieldNames
    ensures r[0].1 == Text(form.sex) && r[1].1 == Text(form.dxType)
    ensures r[2].1 == Text(form.localization) && r[3].1 == Text(form.age)
    ensures r[4].1 == ImagePart(form.image)
  {
    [("sex", Text(form.sex)),
     ("dx_type", Text(form.dxType)),
     ("localization", Text(form.localization)),
     ("age", Text(form.age)),
     ("image", ImagePart(form.image))]
  }

  /** The synchronous part of `predict`: the five appends, in order, with the
      draft's values unchanged; the result is the body handed to the post. */
  method Post(form: Draft) returns (body: seq<Entry>)
    ensures |body| == 5 && Names(body) == FieldNames
    ensures body == Multipart(form)
  {
    var formData := new FormData();
    formData.Append("sex", Text(form.sex));
    formData.Append("dx_type", Text(form.dxType));
    formData.Append("localization", Text(form.localization));
    formData.Append("age", Text(form.age));
    formData.Append("image", ImagePart(form.image));
    body := formData.entries;
  }
}
