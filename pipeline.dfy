/** How the pieces fit: the multipart body the client builds is what the
    route reads, and the route's success body renders as intended. */
module Pipeline {
  import opened Common
  import Api
  import UploadForm
  import Backend
  import Renderer

  /** The field names the client sends are exactly the keys the route
      reads, in the route's reading order. */
  lemma WireNames(d: Draft)
    ensures Names(Api.Multipart(d)) == Backend.FormKeys + [Backend.FileKey]
    ensures (set n | n in Names(Api.Multipart(d))) == (set k | k in Backend.FormKeys) + {Backend.FileKey}
  {
  }

  /** What Flask sees of the client's body: the four strings in
      `request.form` and, exactly when the draft holds a file, that file in
      `request.files`. */
  lemma ReceiveMultipart(d: Draft)
    ensures var r := Backend.Receive(Api.Multipart(d));
      && "sex" in r.form && r.form["sex"] == d.sex
      && "dx_type" in r.form && r.form["dx_type"] == d.dxType
      && "localization" in r.form && r.form["localization"] == d.localization
      && "age" in r.form && r.form["age"] == d.age
      && (Backend.FileKey in r.files <==> d.image.Selected?)
      && (d.image.Selected? ==> r.files[Backend.FileKey] == d.image.file)
  {
    var parts := Api.Multipart(d);
    ReceiveFields(parts, d.sex, d.dxType, d.localization, d.age, Api.ImagePart(d.image));
  }

  /** The same for any five parts named as the client names them. */
  lemma ReceiveFields(parts: seq<Entry>, sex: string, dxType: string, localization: string, age: string, image: Part)
    requires |parts| == 5
    requires parts[0] == ("sex", Text(sex)) && parts[1] == ("dx_type", Text(dxType))
    requires parts[2] == ("localization", Text(localization)) && parts[3] == ("age", Text(age))
    requires parts[4] == ("image", image)
    ensures var r := Backend.Receive(parts);
      && "sex" in r.form && r.form["sex"] == sex
      && "dx_type" in r.form && r.form["dx_type"] == dxType
      && "localization" in r.form && r.form["localization"] == localization
      && "age" in r.form && r.form["age"] == age
      && (Backend.FileKey in r.files <==> image.Blob?)
      && (image.Blob? ==> r.files[Backend.FileKey] == image.file)
  {
    Backend.ReceiveFirstText(parts, 0);
    Backend.ReceiveFirstText(parts, 1);
    Backend.ReceiveFirstText(parts, 2);
    Backend.ReceiveFirstText(parts, 3);
    if image.Blob? {
      Backend.ReceiveFirstBlob(parts, 4);
    } else {
      Backend.ReceiveSources(parts, Backend.FileKey);
    }
  }

  /** The route's reading of the client's body: it fails on the age when
      `float()` refuses it, then on a missing file, and otherwise gets the
      draft's values unchanged. */
  lemma WireRoundTrip(d: Draft, pyFloat: string -> Option<real>)
    ensures Backend.Extract(Backend.Receive(Api.Multipart(d)), pyFloat) ==
      if pyFloat(d.age).None? then Err(Backend.BadAge(d.age))
      else if !d.image.Selected? then Err(Backend.MissingKey(Backend.FileKey))
      else Ok(Backend.Inputs(Backend.Meta(d.sex, d.dxType, d.localization, pyFloat(d.age).value), d.image.file))
  {
    ReceiveMultipart(d);
  }

  /** A draft that passes the client's gate reaches the model with its
      values intact whenever Python's `float()` also accepts the age. */
  lemma AcceptedDraftReachesModel(d: Draft, toNumber: string -> Option<real>, pyFloat: string -> Option<real>)
    requires UploadForm.Gate(d, toNumber).None?
    requires pyFloat(d.age).Some?
    ensures Backend.Extract(Backend.Receive(Api.Multipart(d)), pyFloat) ==
      Ok(Backend.Inputs(Backend.Meta(d.sex, d.dxType, d.localization, pyFloat(d.age).value), d.image.file))
  {
    assert UploadForm.Filled(UploadForm.Get(d, UploadForm.Image));
    WireRoundTrip(d, pyFloat);
  }

  /** "no cancer detected" is neither an abbreviation nor a full name. */
  lemma NoCancerIsUnmapped()
    ensures Backend.NoCancer !in Renderer.ClassNames
    ensures Backend.NoCancer !in Renderer.ClassNames.Values
  {
    forall v | v in Renderer.ClassNames.Values ensures v != Backend.NoCancer {
      var k :| k in Renderer.ClassNames && Renderer.ClassNames[k] == v;
      assert k in {"mel", "nv", "bcc", "akiec", "bkl", "df", "vasc"};
    }
  }

  /** The entries the browser receives are the label classes with their
      probabilities, one each, in ascending key order. */
  lemma WireEntries(labels: seq<string>, probs: seq<real>)
    requires |probs| == |labels|
    requires forall i, j :: 0 <= i < j < |labels| ==> labels[i] != labels[j]
    ensures var w := Backend.JsonEntries(Backend.ProbMapping(labels, probs));
      && |w| == |labels|
      && Backend.KeysAscending(w)
      && (forall i :: 0 <= i < |labels| ==> (labels[i], probs[i]) in w)
      && (forall e :: e in w ==> exists i :: 0 <= i < |labels| && e == (labels[i], probs[i]))
  {
    var m := Backend.ProbMapping(labels, probs);
    Backend.ProbMappingKeysDistinct(labels, probs);
    Backend.JsonEntriesAscending(m);
    MappingMembers(labels, probs);
    Backend.JsonEntriesPermutation(m);
    var w := Backend.JsonEntries(m);
    forall e ensures e in w <==> e in m {
      assert e in w <==> e in multiset(w);
    }
  }

  /** With distinct labels, the dict's entries are exactly the pairs
      (label i, probability i). */
  lemma MappingMembers(labels: seq<string>, probs: seq<real>)
    requires |probs| == |labels|
    requires forall i, j :: 0 <= i < j < |labels| ==> labels[i] != labels[j]
    ensures var m := Backend.ProbMapping(labels, probs);
      && |m| == |labels|
      && (forall i :: 0 <= i < |labels| ==> (labels[i], probs[i]) in m)
      && (forall e :: e in m ==> exists i :: 0 <= i < |labels| && e == (labels[i], probs[i]))
  {
    var m := Backend.ProbMapping(labels, probs);
    Backend.ProbMappingDistinct(labels, probs);
    forall i | 0 <= i < |labels| ensures (labels[i], probs[i]) in m {
      assert m[i] == (labels[i], probs[i]);
    }
    forall e | e in m ensures exists i :: 0 <= i < |labels| && e == (labels[i], probs[i]) {
      var i :| 0 <= i < |m| && m[i] == e;
      assert e == (labels[i], probs[i]);
    }
  }

  /** The rows of the route's success body: one per label class, in the
      stable descending sort of the key-sorted entries. */
  lemma RouteRows(labels: seq<string>, probs: seq<real>, pc: string)
    requires |probs| == |labels|
    requires forall i, j :: 0 <= i < j < |labels| ==> labels[i] != labels[j]
    ensures var w := Backend.JsonEntries(Backend.ProbMapping(labels, probs));
      var v := Renderer.Render(Some(PredictionResult(pc, w))).value;
      && |v.rows| == |labels|
      && Renderer.Pairs(v.rows) == Renderer.SortDesc(w)
      && (forall i :: 0 <= i < |labels| ==> (labels[i], probs[i]) in Renderer.Pairs(v.rows))
      && (forall e :: e in Renderer.Pairs(v.rows) ==> exists i :: 0 <= i < |labels| && e == (labels[i], probs[i]))
  {
    var w := Backend.JsonEntries(Backend.ProbMapping(labels, probs));
    WireEntries(labels, probs);
    Renderer.RenderStable(PredictionResult(pc, w), 0.0);
    Renderer.SortDescPermutation(w);
    forall i | 0 <= i < |labels| ensures (labels[i], probs[i]) in Renderer.SortDesc(w) {
      assert (labels[i], probs[i]) in multiset(w);
    }
    forall e | e in Renderer.SortDesc(w) ensures e in w {
      assert e in multiset(Renderer.SortDesc(w));
    }
  }

  /** The top row holds the maximum probability; when the maximum is
      unique it is the predicted class's entry. */
  lemma MappingHead(labels: seq<string>, probs: seq<real>, k: nat)
    requires |probs| == |labels| > 0
    requires forall i, j :: 0 <= i < j < |labels| ==> labels[i] != labels[j]
    requires Backend.IsFirstMax(probs, k)
    ensures var top := Renderer.SortDesc(Backend.JsonEntries(Backend.ProbMapping(labels, probs)))[0];
      && top.1 == probs[k]
      && ((forall j :: 0 <= j < |probs| && j != k ==> probs[j] < probs[k]) ==> top == (labels[k], probs[k]))
  {
    var w := Backend.JsonEntries(Backend.ProbMapping(labels, probs));
    var s := Renderer.SortDesc(w);
    WireEntries(labels, probs);
    Renderer.SortDescTop(w, (labels[k], probs[k]));
    var j :| 0 <= j < |labels| && s[0] == (labels[j], probs[j]);
  }

  /** On a tie at the maximum, the top row is the tied class whose key
      sorts first: its key is at or below that of every class holding the
      maximum. */
  lemma TopRowSortsFirst(labels: seq<string>, probs: seq<real>, k: nat)
    requires |probs| == |labels| > 0
    requires forall i, j :: 0 <= i < j < |labels| ==> labels[i] != labels[j]
    requires Backend.IsFirstMax(probs, k)
    ensures var top := Renderer.SortDesc(Backend.JsonEntries(Backend.ProbMapping(labels, probs)))[0];
      && top.1 == probs[k]
      && forall i :: 0 <= i < |labels| && probs[i] == probs[k] ==>
           top.0 == labels[i] || Backend.KeyBelow(top.0, labels[i])
  {
    var w := Backend.JsonEntries(Backend.ProbMapping(labels, probs));
    var s := Renderer.SortDesc(w);
    MappingHead(labels, probs, k);
    WireEntries(labels, probs);
    Renderer.SortDescStable(w, probs[k]);
    Renderer.WithProbHead(s);
    forall i | 0 <= i < |labels| && probs[i] == probs[k]
      ensures s[0].0 == labels[i] || Backend.KeyBelow(s[0].0, labels[i])
    {
      var j :| 0 <= j < |w| && w[j] == (labels[i], probs[i]);
      Renderer.WithProbFirst(w, probs[k], j);
      var a :| 0 <= a <= j && w[a] == Renderer.WithProb(w, probs[k])[0];
      assert w[a] == s[0];
      if a < j {
        assert Backend.KeysAscending(w);
      }
    }
  }

  /** A confident prediction: the top row has the predicted probability,
      the predicted class's row is highlighted, and with a unique maximum
      that row is the top one. */
  lemma RenderConfidentPrediction(labels: seq<string>, probs: seq<real>, k: nat)
    requires |probs| == |labels| > 0
    requires forall i, j :: 0 <= i < j < |labels| ==> labels[i] != labels[j]
    requires Backend.IsFirstMax(probs, k) && probs[k] >= Backend.Threshold
    ensures
      var w := Backend.JsonEntries(Backend.ProbMapping(labels, probs));
      var v := Renderer.Render(Some(PredictionResult(labels[k], w))).value;
      && |v.rows| == |labels|
      && v.predictedLabel == Renderer.Label(labels[k])
      && v.rows[0].prob == probs[k]
      && (exists i :: 0 <= i < |v.rows| && v.rows[i].abbr == labels[k] && v.rows[i].prob == probs[k] && v.rows[i].highlight)
      && ((forall j :: 0 <= j < |probs| && j != k ==> probs[j] < probs[k]) ==>
            v.rows[0].abbr == labels[k] && v.rows[0].highlight)
  {
    var w := Backend.JsonEntries(Backend.ProbMapping(labels, probs));
    var rows := Renderer.Render(Some(PredictionResult(labels[k], w))).value.rows;
    RouteRows(labels, probs, labels[k]);
    MappingHead(labels, probs, k);
    assert Renderer.Pairs(rows)[0] == Renderer.SortDesc(w)[0];
    var i :| 0 <= i < |rows| && Renderer.Pairs(rows)[i] == (labels[k], probs[k]);
    assert rows[i].highlight == Renderer.Highlight(rows[i].abbr, labels[k]);
    assert rows[0].highlight == Renderer.Highlight(rows[0].abbr, labels[k]);
  }

  /** An unconfident prediction: "no cancer detected" shows verbatim and no
      row of a class is highlighted. */
  lemma RenderNoCancer(labels: seq<string>, probs: seq<real>)
    requires |probs| == |labels|
    requires forall i, j :: 0 <= i < j < |labels| ==> labels[i] != labels[j]
    ensures
      var w := Backend.JsonEntries(Backend.ProbMapping(labels, probs));
      var v := Renderer.Render(Some(PredictionResult(Backend.NoCancer, w))).value;
      && |v.rows| == |labels|
      && v.predictedLabel == Backend.NoCancer
      && forall i :: 0 <= i < |v.rows| ==> (v.rows[i].highlight <==> v.rows[i].abbr == Backend.NoCancer)
  {
    var w := Backend.JsonEntries(Backend.ProbMapping(labels, probs));
    var v := Renderer.Render(Some(PredictionResult(Backend.NoCancer, w))).value;
    RouteRows(labels, probs, Backend.NoCancer);
    NoCancerIsUnmapped();
    Renderer.LabelVerbatim(Backend.NoCancer, Backend.NoCancer);
    forall i | 0 <= i < |v.rows| ensures v.rows[i].highlight <==> v.rows[i].abbr == Backend.NoCancer {
      Renderer.HighlightUnknown(v.rows[i].abbr, Backend.NoCancer);
    }
  }

  /** A tie at the maximum: the route predicts "nv", its first maximum, but
      the body lists "mel" first, so the stable sort puts the unhighlighted
      "mel" row on top. */
  lemma TieExample(labels: seq<string>, probs: seq<real>)
    requires labels == ["nv", "mel"] && probs == [0.5, 0.5]
    ensures Backend.ArgMax(probs) == 0 && !(probs[0] < Backend.Threshold)
    ensures var w := Backend.JsonEntries(Backend.ProbMapping(labels, probs));
      var v := Renderer.Render(Some(PredictionResult("nv", w))).value;
      v.rows[0].abbr == "mel" && !v.rows[0].highlight
  {
    var m := Backend.ProbMapping(labels, probs);
    Backend.ProbMappingDistinct(labels, probs);
    assert m == [("nv", 0.5), ("mel", 0.5)];
    var w := Backend.JsonEntries(m);
    assert Backend.KeyBelow("mel", "nv") by {
      assert "mel"[0] == 'm' && "nv"[0] == 'n';
    }
    assert m[1..][1..] == [];
    assert Backend.JsonEntries(m[1..]) == [("mel", 0.5)];
    assert w == Backend.InsertByKey(("nv", 0.5), [("mel", 0.5)]);
    assert Backend.InsertByKey(("nv", 0.5), [("mel", 0.5)][1..]) == [("nv", 0.5)];
    assert w == [("mel", 0.5), ("nv", 0.5)];
    var s := Renderer.SortDesc(w);
    assert w[1..][1..] == [];
    assert Renderer.SortDesc(w[1..]) == [("nv", 0.5)];
    assert s == Renderer.Insert(("mel", 0.5), [("nv", 0.5)]);
    assert s == [("mel", 0.5), ("nv", 0.5)];
    Renderer.RenderStable(PredictionResult("nv", w), 0.5);
    Renderer.LabelInjective("mel", "nv");
  }
}
