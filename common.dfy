/** Values shared by the form controller, the request serialiser, the backend
    route and the result renderer. */
module Common {

  datatype Option<+T> = None | Some(value: T)

  datatype Result<+T, +E> = Ok(value: T) | Err(error: E)

  /** Identity of a file picked in the browser; its bytes are not modelled. */
  datatype FileRef = FileRef(id: nat)

  /** The draft's `image` cell: `null` before any pick, `undefined` when a
      pick selected no file (`files[0]` of an empty list), or a file. */
  datatype ImageCell = Null | Undefined | Selected(file: FileRef)

  /** The form draft: four raw strings as typed or selected, and the image. */
  datatype Draft = Draft(sex: string, dxType: string, localization: string, age: string, image: ImageCell)

  /** The draft the form starts with. */
  const EmptyDraft: Draft := Draft("", "", "", "", Null)

  /** One value of a multipart body: a string, or a file (a Blob). */
  datatype Part = Text(text: string) | Blob(file: FileRef)

  /** A named multipart field. */
  type Entry = (string, Part)

  /** One class-probability pair, in the order the JSON object lists it. */
  type ClassProb = (string, real)

  /** The success body as the browser sees it: `predicted_class` and the
      entries of `class_probabilities` in their insertion order. */
  datatype PredictionResult = PredictionResult(predictedClass: string, classProbabilities: seq<ClassProb>)

  /** The names of a list of entries, in order. */
  function Names(entries: seq<Entry>): (r: seq<string>)
    ensures |r| == |entries|
    ensures forall i :: 0 <= i < |entries| ==> r[i] == entries[i].0
  {
    if entries == [] then [] else [entries[0].0] + Names(entries[1..])
  }
}
