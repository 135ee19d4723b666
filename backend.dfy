/** The `/predict` route of backend/app.py (lines 36-61): field extraction,
    the first-maximum label, the "no cancer detected" override, the
    label-to-probability map and the 400 error body. */
module Backend {
  import opened Common

  /** The keys the route reads from `request.form`, in reading order. */
  const FormKeys: seq<string> := ["sex", "dx_type", "localization", "age"]
  /** The key the route reads from `request.files`. */
  const FileKey: string := "image"
  const NoCancer: string := "no cancer detected"
  const Threshold: real := 0.5

  /** What Flask exposes of a multipart request. */
  datatype Request = Request(form: map<string, string>, files: map<string, FileRef>)

  /** `meta_input` and the uploaded file. */
  datatype Meta = Meta(sex: string, dxType: string, localization: string, age: real)
  datatype Inputs = Inputs(meta: Meta, image: FileRef)

  /** Why the route answered 400: a missing key, or an age `float()` refused. */
  datatype Failure = MissingKey(key: string) | BadAge(text: string)

  /** The route's value before `jsonify` serialises it: the two success
      keys, or `{"error": str(e)}`. `classProbabilities` is the dict in
      insertion order; `JsonEntries` gives the order it is sent in. */
  datatype Body = Success(predictedClass: string, classProbabilities: seq<ClassProb>) | Error(cause: Failure)

  datatype Response = Response(status: nat, body: Body)

  /** How the multipart fields reach `request.form` (string parts) and
      `request.files` (file parts): a body without file parts gives no
      files, one without string parts no form fields. */
  function Receive(parts: seq<Entry>): (r: Request)
    ensures (forall i :: 0 <= i < |parts| ==> parts[i].1.Text?) ==> r.files == map[]
    ensures (forall i :: 0 <= i < |parts| ==> parts[i].1.Blob?) ==> r.form == map[]
  {
    if parts == [] then Request(map[], map[])
    else
      var rest := Receive(parts[1..]);
      match parts[0].1
      case Text(t) => Request(rest.form[parts[0].0 := t], rest.files)
      case Blob(f) => Request(rest.form, rest.files[parts[0].0 := f])
  }

  /** Every key Flask exposes comes from a part of that name and kind. */
  lemma {:induction false} ReceiveSources(parts: seq<Entry>, k: string)
    ensures k in Receive(parts).form ==> exists i :: 0 <= i < |parts| && parts[i].0 == k && parts[i].1.Text?
    ensures k in Receive(parts).files ==> exists i :: 0 <= i < |parts| && parts[i].0 == k && parts[i].1.Blob?
  {
    if parts != [] {
      ReceiveSources(parts[1..], k);
      if k != parts[0].0 {
        if k in Receive(parts).form {
          var i :| 0 <= i < |parts[1..]| && parts[1..][i].0 == k && parts[1..][i].1.Text?;
          assert parts[i + 1] == parts[1..][i];
        }
        if k in Receive(parts).files {
          var i :| 0 <= i < |parts[1..]| && parts[1..][i].0 == k && parts[1..][i].1.Blob?;
          assert parts[i + 1] == parts[1..][i];
        }
      }
    }
  }

  /** `request.form[k]` is the first string part named `k`. */
  lemma {:induction false} ReceiveFirstText(parts: seq<Entry>, i: int)
    requires 0 <= i < |parts| && parts[i].1.Text?
    requires forall j :: 0 <= j < i ==> !(parts[j].0 == parts[i].0 && parts[j].1.Text?)
    ensures parts[i].0 in Receive(parts).form && Receive(parts).form[parts[i].0] == parts[i].1.text
  {
    if i > 0 {
      ReceiveFirstText(parts[1..], i - 1);
    }
  }

  /** `request.files[k]` is the first file part named `k`. */
  lemma {:induction false} ReceiveFirstBlob(parts: seq<Entry>, i: int)
    requires 0 <= i < |parts| && parts[i].1.Blob?
    requires forall j :: 0 <= j < i ==> !(parts[j].0 == parts[i].0 && parts[j].1.Blob?)
    ensures parts[i].0 in Receive(parts).files && Receive(parts).files[parts[i].0] == parts[i].1.file
  {
    if i > 0 {
      ReceiveFirstBlob(parts[1..], i - 1);
    }
  }

  /** Building `meta_input` and reading `request.files['image']`, in the
      order the route evaluates them; `pyFloat` is Python's `float()` on a
      string, None where it raises. */
  function Extract(req: Request, pyFloat: string -> Option<real>): (r: Result<Inputs, Failure>)
    ensures r.Ok? <==>
      (forall k :: k in FormKeys ==> k in req.form) && FileKey in req.files && pyFloat(req.form["age"]).Some?
    ensures r.Ok? ==>
      r.value == Inputs(Meta(req.form["sex"], req.form["dx_type"], req.form["localization"],
                             pyFloat(req.form["age"]).value), req.files[FileKey])
    ensures r.Err? && r.error.MissingKey? && r.error.key != FileKey ==>
      exists i :: 0 <= i < |FormKeys| && FormKeys[i] == r.error.key && r.error.key !in req.form &&
                  forall j :: 0 <= j < i ==> FormKeys[j] in req.form
    ensures r.Err? && r.error.BadAge? ==>
      (forall k :: k in FormKeys ==> k in req.form) && r.error.text == req.form["age"] && pyFloat(r.error.text).None?
    ensures r == Err(MissingKey(FileKey)) ==>
      (forall k :: k in FormKeys ==> k in req.form) && pyFloat(req.form["age"]).Some? && FileKey !in req.files
  {
    if "sex" !in req.form then assert FormKeys[0] == "sex"; Err(MissingKey("sex"))
    else if "dx_type" !in req.form then assert FormKeys[1] == "dx_type"; Err(MissingKey("dx_type"))
    else if "localization" !in req.form then assert FormKeys[2] == "localization"; Err(MissingKey("localization"))
    else if "age" !in req.form then assert FormKeys[3] == "age"; Err(MissingKey("age"))
    else if pyFloat(req.form["age"]).None? then Err(BadAge(req.form["age"]))
    else if FileKey !in req.files then Err(MissingKey(FileKey))
    else Ok(Inputs(Meta(req.form["sex"], req.form["dx_type"], req.form["localization"],
                        pyFloat(req.form["age"]).value), req.files[FileKey]))
  }

  /** `k` is the first index at which `probs` takes its maximum. */
  predicate IsFirstMax(probs: seq<real>, k: int)
  {
    0 <= k < |probs| &&
    (forall j :: 0 <= j < |probs| ==> probs[j] <= probs[k]) &&
    (forall j :: 0 <= j < k ==> probs[j] < probs[k])
  }

  /** `argmax`: the first index of the maximum. */
  function ArgMax(probs: seq<real>): (k: nat)
    requires |probs| > 0
    ensures IsFirstMax(probs, k)
  {
    if |probs| == 1 then 0
    else
      var k' := ArgMax(probs[..|probs| - 1]);
      if probs[|probs| - 1] > probs[k'] then |probs| - 1 else k'
  }

  /** No index before the first maximum holds a value as large. */
  lemma FirstMaxLeast(probs: seq<real>, k: int, j: int)
    requires IsFirstMax(probs, k)
    requires 0 <= j < |probs| && probs[j] >= probs[k]
    ensures k <= j
  {
  }

  /** There is exactly one first index of the maximum. */
  lemma FirstMaxUnique(probs: seq<real>, k: int, k': int)
    requires IsFirstMax(probs, k) && IsFirstMax(probs, k')
    ensures k == k'
  {
    FirstMaxLeast(probs, k, k');
    FirstMaxLeast(probs, k', k);
  }

  /** The keys of a list of pairs. */
  function Keys(m: seq<ClassProb>): (ks: set<string>)
  {
    set i | 0 <= i < |m| :: m[i].0
  }

  predicate DistinctKeys(m: seq<ClassProb>)
  {
    forall i, j :: 0 <= i < j < |m| ==> m[i].0 != m[j].0
  }

  /** The value a key maps to, if any (first occurrence). */
  function Lookup(m: seq<ClassProb>, k: string): (r: Option<real>)
    ensures r.Some? ==> (k, r.value) in m
  {
    if m == [] then None
    else if m[0].0 == k then Some(m[0].1)
    else Lookup(m[1..], k)
  }

  /** `d[k] = v` on a Python dict viewed as its items in insertion order:
      an existing key keeps its place and takes the new value, a new key
      goes last. */
  function DictSet(m: seq<ClassProb>, k: string, v: real): (r: seq<ClassProb>)
    ensures Keys(r) == Keys(m) + {k}
    ensures k !in Keys(m) ==> r == m + [(k, v)]
  {
    if m == [] then
      KeysCons((k, v), []);
      [(k, v)]
    else if m[0].0 == k then
      KeysCons(m[0], m[1..]);
      KeysCons((k, v), m[1..]);
      [(k, v)] + m[1..]
    else
      var t := DictSet(m[1..], k, v);
      KeysCons(m[0], m[1..]);
      KeysCons(m[0], t);
      [m[0]] + t
  }

  lemma KeysCons(x: ClassProb, t: seq<ClassProb>)
    ensures Keys([x] + t) == {x.0} + Keys(t)
  {
    var r := [x] + t;
    assert r[0].0 == x.0;
    forall y | y in Keys(t) ensures y in Keys(r) {
      var i :| 0 <= i < |t| && t[i].0 == y;
      assert r[i + 1].0 == y;
    }
    forall y | y in Keys(r) ensures y == x.0 || y in Keys(t) {
      var i :| 0 <= i < |r| && r[i].0 == y;
      if i > 0 { assert t[i - 1].0 == y; }
    }
  }

  /** After `d[k] = v`, `d[k]` is `v` and every other key reads as before. */
  lemma {:induction false} DictSetLookup(m: seq<ClassProb>, k: string, v: real, k': string)
    ensures Lookup(DictSet(m, k, v), k') == if k' == k then Some(v) else Lookup(m, k')
  {
    if m != [] && m[0].0 != k {
      DictSetLookup(m[1..], k, v, k');
    }
  }

  /** A dict never holds a key twice. */
  lemma {:induction false} DictSetDistinct(m: seq<ClassProb>, k: string, v: real)
    requires DistinctKeys(m)
    ensures DistinctKeys(DictSet(m, k, v))
  {
    if m != [] {
      var r := DictSet(m, k, v);
      var t := r[1..];
      assert m[0].0 !in Keys(m[1..]) by {
        forall i | 0 <= i < |m[1..]| ensures m[1..][i].0 != m[0].0 {
          assert m[i + 1].0 != m[0].0;
        }
      }
      if m[0].0 != k {
        DictSetDistinct(m[1..], k, v);
        assert t == DictSet(m[1..], k, v);
      } else {
        assert t == m[1..];
      }
      assert r[0].0 !in Keys(t);
      forall i, j | 0 <= i < j < |r| ensures r[i].0 != r[j].0 {
        if i == 0 {
          assert r[j].0 == t[j - 1].0;
        } else {
          assert r[i].0 == t[i - 1].0 && r[j].0 == t[j - 1].0;
        }
      }
    }
  }

  /** `{str(label_classes[i]): float(prob) for i, prob in enumerate(probabilities)}`. */
  function ProbMapping(labels: seq<string>, probs: seq<real>): (r: seq<ClassProb>)
    requires |labels| == |probs|
    ensures Keys(r) == set l | l in labels
  {
    if probs == [] then []
    else
      var n := |probs| - 1;
      var r := DictSet(ProbMapping(labels[..n], probs[..n]), labels[n], probs[n]);
      assert labels == labels[..n] + [labels[n]];
      r
  }

  /** Each label appears once in the map, whatever the labels. */
  lemma {:induction false} ProbMappingKeysDistinct(labels: seq<string>, probs: seq<real>)
    requires |labels| == |probs|
    ensures DistinctKeys(ProbMapping(labels, probs))
  {
    if probs != [] {
      var n := |probs| - 1;
      ProbMappingKeysDistinct(labels[..n], probs[..n]);
      DictSetDistinct(ProbMapping(labels[..n], probs[..n]), labels[n], probs[n]);
    }
  }

  /** With the distinct class names a label encoder yields, the map lists
      label i with probability i, in label order. */
  lemma {:induction false} ProbMappingDistinct(labels: seq<string>, probs: seq<real>)
    requires |labels| == |probs|
    requires forall i, j :: 0 <= i < j < |labels| ==> labels[i] != labels[j]
    ensures |ProbMapping(labels, probs)| == |labels|
    ensures forall i :: 0 <= i < |labels| ==> ProbMapping(labels, probs)[i] == (labels[i], probs[i])
  {
    if probs != [] {
      var n := |probs| - 1;
      ProbMappingDistinct(labels[..n], probs[..n]);
      var m := ProbMapping(labels[..n], probs[..n]);
      assert labels[n] !in Keys(m) by {
        forall i | 0 <= i < |m| ensures m[i].0 != labels[n] {
          assert m[i].0 == labels[i];
        }
      }
    }
  }

  /** For repeated labels the dict keeps the probability of the last index
      carrying that label. */
  lemma {:induction false} ProbMappingLastWins(labels: seq<string>, probs: seq<real>, i: int)
    requires |labels| == |probs|
    requires 0 <= i < |labels|
    requires forall j :: i < j < |labels| ==> labels[j] != labels[i]
    ensures Lookup(ProbMapping(labels, probs), labels[i]) == Some(probs[i])
  {
    var n := |probs| - 1;
    DictSetLookup(ProbMapping(labels[..n], probs[..n]), labels[n], probs[n], labels[i]);
    if i < n {
      ProbMappingLastWins(labels[..n], probs[..n], i);
    }
  }

  /** The route. `probs` is the softmax output of the model for this request,
      one probability per label class. */
  method Predict(req: Request, pyFloat: string -> Option<real>, labels: seq<string>, probs: seq<real>)
    returns (resp: Response)
    requires |probs| == |labels| > 0
    ensures resp.status == 400 <==> Extract(req, pyFloat).Err?
    ensures Extract(req, pyFloat).Err? ==> resp.body == Error(Extract(req, pyFloat).error)
    ensures Extract(req, pyFloat).Ok? ==> resp.status == 200 && resp.body.Success?
    ensures resp.body.Success? ==>
      resp.body.predictedClass ==
        if probs[ArgMax(probs)] < Threshold then NoCancer else labels[ArgMax(probs)]
    ensures resp.body.Success? ==>
      forall k :: IsFirstMax(probs, k) ==>
        resp.body.predictedClass == if probs[k] < Threshold then NoCancer else labels[k]
    ensures resp.body.Success? ==> resp.body.classProbabilities == ProbMapping(labels, probs)
  {
    var inputs := Extract(req, pyFloat);
    if inputs.Err? {
      return Response(400, Error(inputs.error));
    }
    var predIdx := ArgMax(probs);
    var predLabel := labels[predIdx];
    if probs[predIdx] < Threshold {
      predLabel := NoCancer;
    }
    var probMapping := ProbMapping(labels, probs);
    resp := Response(200, Success(predLabel, probMapping));
    forall k | IsFirstMax(probs, k) ensures k == predIdx {
      FirstMaxUnique(probs, k, predIdx);
    }
  }

  /** Python's `<` on strings: code point by code point, a proper prefix
      first. */
  predicate KeyBelow(a: string, b: string)
    ensures KeyBelow(a, b) ==> a != b
  {
    if a == [] then b != []
    else b != [] && (a[0] < b[0] || (a[0] == b[0] && KeyBelow(a[1..], b[1..])))
  }

  lemma {:induction false} KeyBelowTransitive(a: string, b: string, c: string)
    requires KeyBelow(a, b) && KeyBelow(b, c)
    ensures KeyBelow(a, c)
  {
    if a != [] && a[0] == b[0] && b[0] == c[0] {
      KeyBelowTransitive(a[1..], b[1..], c[1..]);
    }
  }

  /** Two different strings are ordered one way or the other. */
  lemma {:induction false} KeyBelowTotal(a: string, b: string)
    requires a != b
    ensures KeyBelow(a, b) || KeyBelow(b, a)
  {
    if a != [] && b != [] && a[0] == b[0] {
      assert a == [a[0]] + a[1..] && b == [b[0]] + b[1..];
      KeyBelowTotal(a[1..], b[1..]);
    }
  }

  predicate KeysAscending(m: seq<ClassProb>)
  {
    forall i, j :: 0 <= i < j < |m| ==> KeyBelow(m[i].0, m[j].0)
  }

  /** Puts `x` before the first entry whose key is not below its own. */
  function InsertByKey(x: ClassProb, m: seq<ClassProb>): (r: seq<ClassProb>)
    ensures |r| == |m| + 1
  {
    if m == [] || !KeyBelow(m[0].0, x.0) then [x] + m
    else [m[0]] + InsertByKey(x, m[1..])
  }

  lemma {:induction false} InsertByKeyPermutation(x: ClassProb, m: seq<ClassProb>)
    ensures multiset(InsertByKey(x, m)) == multiset(m) + multiset{x}
  {
    if m != [] && KeyBelow(m[0].0, x.0) {
      InsertByKeyPermutation(x, m[1..]);
      assert m == [m[0]] + m[1..];
    }
  }

  /** Inserting a key that is not yet present keeps the keys ascending. */
  lemma {:induction false} InsertByKeyAscending(x: ClassProb, m: seq<ClassProb>)
    requires KeysAscending(m)
    requires forall i :: 0 <= i < |m| ==> m[i].0 != x.0
    ensures KeysAscending(InsertByKey(x, m))
  {
    if m == [] {
    } else if !KeyBelow(m[0].0, x.0) {
      KeyBelowTotal(m[0].0, x.0);
      var r := [x] + m;
      forall i, j | 0 <= i < j < |r| ensures KeyBelow(r[i].0, r[j].0) {
        if i == 0 {
          assert r[j] == m[j - 1];
          if j > 1 {
            KeyBelowTransitive(x.0, m[0].0, m[j - 1].0);
          }
        } else {
          assert r[i] == m[i - 1] && r[j] == m[j - 1];
        }
      }
    } else {
      var t := InsertByKey(x, m[1..]);
      InsertByKeyAscending(x, m[1..]);
      assert KeyBelow(m[0].0, t[0].0) by {
        if m[1..] != [] && KeyBelow(m[1..][0].0, x.0) {
          assert t[0] == m[1];
        }
      }
      var r := [m[0]] + t;
      assert r == InsertByKey(x, m);
      forall i, j | 0 <= i < j < |r| ensures KeyBelow(r[i].0, r[j].0) {
        if i == 0 {
          assert r[j] == t[j - 1];
          if j > 1 {
            KeyBelowTransitive(m[0].0, t[0].0, t[j - 1].0);
          }
        } else {
          assert r[i] == t[i - 1] && r[j] == t[j - 1];
        }
      }
    }
  }

  /** The entries of `class_probabilities` as `jsonify` writes them: Flask's
      JSON provider sorts the keys. */
  function JsonEntries(m: seq<ClassProb>): (r: seq<ClassProb>)
    ensures |r| == |m|
  {
    if m == [] then [] else InsertByKey(m[0], JsonEntries(m[1..]))
  }

  /** The body carries the same entries, each once. */
  lemma {:induction false} JsonEntriesPermutation(m: seq<ClassProb>)
    ensures multiset(JsonEntries(m)) == multiset(m)
  {
    if m != [] {
      JsonEntriesPermutation(m[1..]);
      InsertByKeyPermutation(m[0], JsonEntries(m[1..]));
      assert m == [m[0]] + m[1..];
    }
  }

  /** A dict's keys are distinct, so the body lists them in strictly
      ascending order. */
  lemma {:induction false} JsonEntriesAscending(m: seq<ClassProb>)
    requires DistinctKeys(m)
    ensures KeysAscending(JsonEntries(m))
  {
    if m != [] {
      var t := JsonEntries(m[1..]);
      JsonEntriesAscending(m[1..]);
      JsonEntriesPermutation(m[1..]);
      forall i | 0 <= i < |t| ensures t[i].0 != m[0].0 {
        assert t[i] in multiset(m[1..]);
        var j :| 0 <= j < |m[1..]| && m[1..][j] == t[i];
        assert m[j + 1] == t[i];
      }
      InsertByKeyAscending(m[0], t);
    }
  }
}
