/** The form controller of frontend/src/components/UploadForm.js, together
    with the two result cells (`prediction`, `error`) its owner App holds. */
module UploadForm {
  import opened Common
  import Api

  const RequiredMessage: string := "All fields are required."
  const AgeMessage: string := "Please enter a valid age."
  const GenericFailure: string := "Prediction failed. Please try again or check your input."

  /** The `name` of the input that raised a change event. */
  datatype Field = Sex | DxType | Localization | Age | Image

  /** What a draft holds for one field. */
  datatype FieldValue = TextValue(text: string) | ImageValue(cell: ImageCell)

  function Get(d: Draft, f: Field): (v: FieldValue)
    ensures v.TextValue? <==> f != Image
  {
    match f
    case Sex => TextValue(d.sex)
    case DxType => TextValue(d.dxType)
    case Localization => TextValue(d.localization)
    case Age => TextValue(d.age)
    case Image => ImageValue(d.image)
  }

  /** A draft is determined by what it holds for the five fields. */
  lemma DraftExtensionality(d: Draft, e: Draft)
    requires forall f :: Get(d, f) == Get(e, f)
    ensures d == e
  {
    assert Get(d, Sex) == Get(e, Sex) && Get(d, DxType) == Get(e, DxType);
    assert Get(d, Localization) == Get(e, Localization) && Get(d, Age) == Get(e, Age);
    assert Get(d, Image) == Get(e, Image);
  }

  /** JavaScript truthiness of a field: a non-empty string, or a file. */
  predicate Filled(v: FieldValue)
  {
    match v
    case TextValue(s) => s != ""
    case ImageValue(c) => c.Selected?
  }

  /** The draft after one change event: `{ ...form, [name]: value }`, or for
      the image `{ ...form, image: files[0] }`. */
  function ApplyChange(d: Draft, name: Field, value: string, files: seq<FileRef>): (r: Draft)
    ensures name != Image ==> Get(r, name) == TextValue(value)
    ensures name == Image ==> Get(r, Image) == ImageValue(if |files| > 0 then Selected(files[0]) else Undefined)
    ensures forall f :: f != name ==> Get(r, f) == Get(d, f)
  {
    match name
    case Sex => d.(sex := value)
    case DxType => d.(dxType := value)
    case Localization => d.(localization := value)
    case Age => d.(age := value)
    case Image => d.(image := if |files| > 0 then Selected(files[0]) else Undefined)
  }

  /** The spread update changes field `name` and nothing else: it is the
      one draft that holds the new value there and agrees with the old draft
      on every other field. */
  lemma ApplyChangeUnique(d: Draft, name: Field, value: string, files: seq<FileRef>, e: Draft)
    requires Get(e, name) == Get(ApplyChange(d, name, value, files), name)
    requires forall f :: f != name ==> Get(e, f) == Get(d, f)
    ensures e == ApplyChange(d, name, value, files)
  {
    var r := ApplyChange(d, name, value, files);
    forall f ensures Get(e, f) == Get(r, f) {
      if f != name {
        assert Get(r, f) == Get(d, f);
      }
    }
    DraftExtensionality(e, r);
  }

  /** The first validation condition: every one of the five fields truthy. */
  predicate Complete(d: Draft)
    ensures Complete(d) <==> forall f :: Filled(Get(d, f))
  {
    assert Get(d, Sex) == TextValue(d.sex) && Get(d, DxType) == TextValue(d.dxType);
    assert Get(d, Localization) == TextValue(d.localization) && Get(d, Age) == TextValue(d.age);
    assert Get(d, Image) == ImageValue(d.image);
    d.sex != "" && d.dxType != "" && d.localization != "" && d.age != "" && d.image.Selected?
  }

  /** The validation gate, first failure wins: the message it reports, or
      None when the draft may be sent. */
  function Gate(d: Draft, toNumber: string -> Option<real>): (r: Option<string>)
    ensures r == Some(RequiredMessage) <==> exists f :: !Filled(Get(d, f))
    ensures r == Some(AgeMessage) <==>
      (forall f :: Filled(Get(d, f))) && (toNumber(d.age).None? || toNumber(d.age).value <= 0.0)
    ensures r.None? <==>
      (forall f :: Filled(Get(d, f))) && !(toNumber(d.age).None? || toNumber(d.age).value <= 0.0)
  {
    if !Complete(d) then
      assert !Filled(Get(d, Sex)) || !Filled(Get(d, DxType)) || !Filled(Get(d, Localization))
        || !Filled(Get(d, Age)) || !Filled(Get(d, Image));
      Some(RequiredMessage)
    else if toNumber(d.age).None? || toNumber(d.age).value <= 0.0 then Some(AgeMessage)
    else None
  }

  /** The text shown for a rejected post: the server's `error` string when
      it is present and non-empty, else the generic message. */
  function FailureMessage(serverError: Option<string>): (r: string)
    ensures r != ""
    ensures serverError.Some? && serverError.value != "" ==> r == serverError.value
    ensures serverError.None? || serverError.value == "" ==> r == GenericFailure
  {
    if serverError.Some? && serverError.value != "" then serverError.value else GenericFailure
  }

  /** The result cells after a post settles: exactly one of them is set. */
  function Settled(reply: Api.Outcome): (cells: (Option<PredictionResult>, Option<string>))
    ensures cells.0.Some? <==> cells.1.None?
    ensures reply.Resolved? ==> cells.0 == Some(reply.data)
    ensures reply.Rejected? ==> cells.1 == Some(FailureMessage(reply.serverError))
  {
    match reply
    case Resolved(data) => (Some(data), None)
    case Rejected(serverError) => (None, Some(FailureMessage(serverError)))
  }

  class Controller {
    var form: Draft
    /** The image preview's data URL; only its clearing is modelled. */
    var preview: Option<string>
    var loading: bool
    var prediction: Option<PredictionResult>
    var error: Option<string>

    /** The result cells are never both set, and both are clear while a
        request is in flight. */
    ghost predicate Valid()
      reads this
    {
      (prediction.None? || error.None?) &&
      (loading ==> prediction.None? && error.None?)
    }

    constructor ()
      ensures Valid()
      ensures form == EmptyDraft && preview.None? && !loading
      ensures prediction.None? && error.None?
    {
      form := EmptyDraft;
      preview := None;
      loading := false;
      prediction := None;
      error := None;
    }

    /** `handleChange`: clears both result cells, then updates one field of
        the draft; an image change with no file clears the preview. */
    method HandleChange(name: Field, value: string, files: seq<FileRef>)
      requires Valid()
      modifies this
      ensures Valid()
      ensures prediction.None? && error.None?
      ensures form == ApplyChange(old(form), name, value, files)
      ensures preview == (if name == Image && |files| == 0 then None else old(preview))
      ensures loading == old(loading)
    {
      prediction := None;
      error := None;
      if name == Image {
        var file := if |files| > 0 then Selected(files[0]) else Undefined;
        form := form.(image := file);
        if !file.Selected? {
          preview := None;
        }
      } else {
        form := ApplyChange(form, name, value, files);
      }
    }

    /** `handleSubmit` up to its `await`: sets `loading`, clears the result
        cells, runs the gate, and either records the gate's message or hands
        the serialised draft to the post (the returned request). */
    method Submit(toNumber: string -> Option<real>) returns (request: Option<seq<Entry>>)
      requires Valid()
      modifies this
      ensures Valid()
      ensures form == old(form) && preview == old(preview)
      ensures prediction.None?
      ensures request.None? <==> Gate(form, toNumber).Some?
      ensures request.None? ==> error == Gate(form, toNumber) && !loading
      ensures request.Some? ==> request.value == Api.Multipart(form) && error.None? && loading
    {
      loading := true;
      error := None;
      prediction := None;
      if !Complete(form) {
        error := Some(RequiredMessage);
        loading := false;
        return None;
      }
      if toNumber(form.age).None? || toNumber(form.age).value <= 0.0 {
        error := Some(AgeMessage);
        loading := false;
        return None;
      }
      var body := Api.Post(form);
      request := Some(body);
    }

    /** `handleSubmit` after its `await`: records the result or the error
        message, then clears `loading`. */
    method Settle(reply: Api.Outcome)
      requires Valid() && loading
      modifies this
      ensures Valid() && !loading
      ensures form == old(form) && preview == old(preview)
      ensures (prediction, error) == Settled(reply)
    {
      match reply {
        case Resolved(data) =>
          prediction := Some(data);
        case Rejected(serverError) =>
          error := Some(FailureMessage(serverError));
      }
      loading := false;
    }

    /** `handleSubmit` when no other event runs while the post is pending:
        at most one request, a message from the gate or the post otherwise,
        and `loading` false at the end; the draft is left as it was. */
    method HandleSubmit(toNumber: string -> Option<real>, reply: Api.Outcome) returns (request: Option<seq<Entry>>)
      requires Valid() && !loading
      modifies this
      ensures Valid() && !loading
      ensures form == old(form) && preview == old(preview)
      ensures request == (if Gate(form, toNumber).None? then Some(Api.Multipart(form)) else None)
      ensures Gate(form, toNumber).Some? ==> prediction.None? && error == Gate(form, toNumber)
      ensures Gate(form, toNumber).None? ==> (prediction, error) == Settled(reply)
    {
      request := Submit(toNumber);
      if request.Some? {
        Settle(reply);
      }
    }
  }
}
