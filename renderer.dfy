/** The result renderer of frontend/src/components/Prediction.js: the label
    lookup, the probability table sorted by descending probability, and the
    highlight of the predicted row. */
module Renderer {
  import opened Common

  /** `CLASS_NAME_MAP`: abbreviation to full class name. */
  const ClassNames: map<string, string> := map[
    "mel" := "Melanoma",
    "nv" := "Melanocytic Nevus",
    "bcc" := "Basal Cell Carcinoma",
    "akiec" := "Actinic Keratoses / Intraepithelial Carcinoma",
    "bkl" := "Benign Keratosis-like Lesion",
    "df" := "Dermatofibroma",
    "vasc" := "Vascular Skin Lesion"
  ]

  /** `CLASS_NAME_MAP[abbr] || abbr`: the full name, or the text verbatim.
      Every full name is non-empty, so `||` falls back exactly for texts
      that are not keys of the table. */
  function Label(abbr: string): (r: string)
    ensures r == abbr || r in ClassNames.Values
    ensures abbr in ClassNames ==> r == ClassNames[abbr] && r != ""
    ensures abbr !in ClassNames ==> r == abbr
  {
    if abbr in ClassNames then ClassNames[abbr] else abbr
  }

  /** Two different known abbreviations never share a full name, so a known
      abbreviation is recovered from its label. */
  lemma LabelInjective(a: string, b: string)
    requires a in ClassNames && b in ClassNames
    ensures Label(a) == Label(b) <==> a == b
  {
    if a != b {
      assert a == "mel" || a == "nv" || a == "bcc" || a == "akiec" || a == "bkl" || a == "df" || a == "vasc";
      assert b == "mel" || b == "nv" || b == "bcc" || b == "akiec" || b == "bkl" || b == "df" || b == "vasc";
    }
  }

  /** A text that is neither a known abbreviation nor a full name (such as
      the backend's "no cancer detected") shows verbatim, and only a key
      spelled the same way shows the same label. */
  lemma LabelVerbatim(text: string, abbr: string)
    requires text !in ClassNames && text !in ClassNames.Values
    ensures Label(text) == text
    ensures Label(abbr) == Label(text) <==> abbr == text
  {
    if abbr in ClassNames {
      assert ClassNames[abbr] in ClassNames.Values;
    }
  }

  /** Probabilities never increase along the sequence. */
  predicate NonIncreasing(s: seq<ClassProb>)
  {
    forall i, j :: 0 <= i < j < |s| ==> s[i].1 >= s[j].1
  }

  /** The entries with probability `p`, in their order. */
  function WithProb(s: seq<ClassProb>, p: real): (r: seq<ClassProb>)
  {
    if s == [] then []
    else (if s[0].1 == p then [s[0]] else []) + WithProb(s[1..], p)
  }

  /** Puts `x` before the first entry whose probability is not above its
      own: `x` stays ahead of every tie. */
  function Insert(x: ClassProb, s: seq<ClassProb>): (r: seq<ClassProb>)
    ensures |r| == |s| + 1
  {
    if s == [] || s[0].1 <= x.1 then [x] + s
    else [s[0]] + Insert(x, s[1..])
  }

  /** Inserting adds `x` and loses nothing. */
  lemma {:induction false} InsertPermutation(x: ClassProb, s: seq<ClassProb>)
    ensures multiset(Insert(x, s)) == multiset(s) + multiset{x}
  {
    if s != [] && s[0].1 > x.1 {
      InsertPermutation(x, s[1..]);
      assert s == [s[0]] + s[1..];
    }
  }

  /** Inserting into a descending sequence keeps it descending. */
  lemma {:induction false} InsertSorted(x: ClassProb, s: seq<ClassProb>)
    requires NonIncreasing(s)
    ensures NonIncreasing(Insert(x, s))
  {
    if s != [] && s[0].1 > x.1 {
      var t := Insert(x, s[1..]);
      InsertSorted(x, s[1..]);
      assert t[0].1 <= s[0].1 by {
        if s[1..] != [] && s[1..][0].1 > x.1 {
          assert t[0] == s[1];
        }
      }
      var r := [s[0]] + t;
      assert r == Insert(x, s);
      forall i, j | 0 <= i < j < |r| ensures r[i].1 >= r[j].1 {
        if i == 0 {
          assert r[j] == t[j - 1];
          assert t[0].1 >= t[j - 1].1;
        } else {
          assert r[i] == t[i - 1] && r[j] == t[j - 1];
        }
      }
    }
  }

  /** `.sort((a, b) => b[1] - a[1])` on the entries: a stable sort by
      descending probability. */
  function SortDesc(s: seq<ClassProb>): (r: seq<ClassProb>)
    ensures |r| == |s|
    ensures NonIncreasing(r)
  {
    if s == [] then []
    else
      InsertSorted(s[0], SortDesc(s[1..]));
      Insert(s[0], SortDesc(s[1..]))
  }

  /** The sort reorders the entries and nothing more. */
  lemma {:induction false} SortDescPermutation(s: seq<ClassProb>)
    ensures multiset(SortDesc(s)) == multiset(s)
  {
    if s != [] {
      SortDescPermutation(s[1..]);
      InsertPermutation(s[0], SortDesc(s[1..]));
      assert s == [s[0]] + s[1..];
    }
  }

  lemma {:induction false} WithProbAppend(a: seq<ClassProb>, b: seq<ClassProb>, p: real)
    ensures WithProb(a + b, p) == WithProb(a, p) + WithProb(b, p)
  {
    if a == [] {
      assert a + b == b;
    } else {
      var c, head := a + b, if a[0].1 == p then [a[0]] else [];
      assert c[0] == a[0] && c[1..] == a[1..] + b;
      WithProbAppend(a[1..], b, p);
      assert WithProb(c, p) == head + WithProb(c[1..], p);
      assert WithProb(a, p) == head + WithProb(a[1..], p);
    }
  }

  /** Inserting `x` keeps it ahead of the entries of equal probability. */
  lemma {:induction false} InsertStable(x: ClassProb, s: seq<ClassProb>, p: real)
    ensures WithProb(Insert(x, s), p) == WithProb([x] + s, p)
  {
    if s != [] && s[0].1 > x.1 {
      var h, t := s[0], s[1..];
      assert Insert(x, s) == [h] + Insert(x, t);
      assert s == [h] + t;
      calc {
        WithProb([h] + Insert(x, t), p);
        { WithProbAppend([h], Insert(x, t), p); InsertStable(x, t, p); }
        WithProb([h], p) + WithProb([x] + t, p);
        { WithProbSwap(h, x, t, p); }
        WithProb([x] + ([h] + t), p);
      }
    }
  }

  /** Two entries of different probabilities can trade places without
      changing any of the filtered subsequences. */
  lemma WithProbSwap(h: ClassProb, x: ClassProb, t: seq<ClassProb>, p: real)
    requires h.1 != x.1
    ensures WithProb([h], p) + WithProb([x] + t, p) == WithProb([x] + ([h] + t), p)
  {
    WithProbAppend([x], t, p);
    WithProbAppend([x], [h] + t, p);
    WithProbAppend([h], t, p);
    var xs, hs, rest := WithProb([x], p), WithProb([h], p), WithProb(t, p);
    assert xs == [] || hs == [];
    assert hs + (xs + rest) == xs + (hs + rest);
  }

  /** The sort is stable: entries of equal probability keep their order. */
  lemma {:induction false} SortDescStable(s: seq<ClassProb>, p: real)
    ensures WithProb(SortDesc(s), p) == WithProb(s, p)
  {
    if s != [] {
      var h, t := s[0], s[1..];
      var u := SortDesc(t);
      assert SortDesc(s) == Insert(h, u);
      SortDescStable(t, p);
      InsertStable(h, u, p);
      WithProbAppend([h], u, p);
      WithProbAppend([h], t, p);
      assert [h] + t == s;
    }
  }

  lemma WithProbMember(s: seq<ClassProb>, p: real, y: ClassProb)
    requires y in WithProb(s, p)
    ensures y in s && y.1 == p
  {
    if s != [] && y != s[0] {
      WithProbAppend([s[0]], s[1..], p);
      assert [s[0]] + s[1..] == s;
      WithProbMember(s[1..], p, y);
    }
  }

  lemma WithProbHead(s: seq<ClassProb>)
    requires s != []
    ensures WithProb(s, s[0].1) != [] && WithProb(s, s[0].1)[0] == s[0]
  {
  }

  /** Two descending sequences with the same entries of every probability,
      in the same order, are equal. */
  lemma {:induction false} SortedByFiltersUnique(a: seq<ClassProb>, b: seq<ClassProb>)
    requires NonIncreasing(a) && NonIncreasing(b)
    requires forall p :: WithProb(a, p) == WithProb(b, p)
    ensures a == b
  {
    if a == [] || b == [] {
      if a != [] {
        WithProbHead(a);
      } else if b != [] {
        WithProbHead(b);
      }
    } else {
      var m, n := a[0].1, b[0].1;
      WithProbHead(a);
      WithProbMember(b, m, a[0]);
      WithProbHead(b);
      WithProbMember(a, n, b[0]);
      assert m == n;
      assert a[0] == b[0];
      forall p ensures WithProb(a[1..], p) == WithProb(b[1..], p) {
        WithProbTail(a, b, p);
      }
      SortedByFiltersUnique(a[1..], b[1..]);
    }
  }

  /** The first entry with probability `p` comes no later than any entry
      with that probability. */
  lemma {:induction false} WithProbFirst(s: seq<ClassProb>, p: real, j: int)
    requires 0 <= j < |s| && s[j].1 == p
    ensures WithProb(s, p) != []
    ensures exists a :: 0 <= a <= j && s[a] == WithProb(s, p)[0]
  {
    if s[0].1 != p {
      WithProbFirst(s[1..], p, j - 1);
      var a :| 0 <= a <= j - 1 && s[1..][a] == WithProb(s[1..], p)[0];
      assert s[a + 1] == s[1..][a];
    }
  }

  /** Dropping a common first entry keeps the filtered subsequences equal. */
  lemma WithProbTail(a: seq<ClassProb>, b: seq<ClassProb>, p: real)
    requires a != [] && b != [] && a[0] == b[0]
    requires WithProb(a, p) == WithProb(b, p)
    ensures WithProb(a[1..], p) == WithProb(b[1..], p)
  {
    var head := if a[0].1 == p then [a[0]] else [];
    assert WithProb(a, p) == head + WithProb(a[1..], p);
    assert WithProb(b, p) == head + WithProb(b[1..], p);
    assert (head + WithProb(a[1..], p))[|head|..] == WithProb(a[1..], p);
    assert (head + WithProb(b[1..], p))[|head|..] == WithProb(b[1..], p);
  }

  /** Any stable descending reordering of the entries is SortDesc's result,
      so SortDesc is what a stable `Array.prototype.sort` returns. */
  lemma SortDescUnique(s: seq<ClassProb>, r: seq<ClassProb>)
    requires NonIncreasing(r)
    requires forall p :: WithProb(r, p) == WithProb(s, p)
    ensures r == SortDesc(s)
  {
    forall p ensures WithProb(r, p) == WithProb(SortDesc(s), p) {
      SortDescStable(s, p);
    }
    SortedByFiltersUnique(r, SortDesc(s));
  }

  /** The first sorted entry is one of the entries, and no entry has a
      higher probability. */
  lemma SortDescTop(s: seq<ClassProb>, e: ClassProb)
    requires e in s
    ensures SortDesc(s)[0] in s && SortDesc(s)[0].1 >= e.1
  {
    var r := SortDesc(s);
    SortDescPermutation(s);
    assert r[0] in multiset(r);
    assert e in multiset(r);
    var i :| 0 <= i < |r| && r[i] == e;
    if i > 0 {
      assert NonIncreasing(r);
    }
  }

  /** The first row of the table is the entry holding the first maximum. */
  lemma {:induction false} SortDescHead(s: seq<ClassProb>, k: int)
    requires 0 <= k < |s|
    requires forall j :: 0 <= j < |s| ==> s[j].1 <= s[k].1
    requires forall j :: 0 <= j < k ==> s[j].1 < s[k].1
    ensures SortDesc(s)[0] == s[k]
  {
    var t := s[1..];
    if k == 0 {
      if t != [] {
        var r := SortDesc(t);
        SortDescPermutation(t);
        assert r[0] in multiset(t);
        assert r[0] in t;
      }
    } else {
      SortDescHead(t, k - 1);
      assert s[0].1 < s[k].1;
    }
  }

  /** One table row: the key, its label, its probability and the highlight. */
  datatype Row = Row(abbr: string, fullName: string, prob: real, highlight: bool)

  /** What the component shows for a prediction. */
  datatype View = View(predictedLabel: string, rows: seq<Row>)

  /** The highlight condition of a row: the row of the predicted class
      itself is always highlighted. */
  predicate Highlight(abbr: string, predictedClass: string)
    ensures abbr == predictedClass ==> Highlight(abbr, predictedClass)
  {
    Label(abbr) == Label(predictedClass) || abbr == predictedClass
  }

  /** For a known predicted class, the rows highlighted are its own and any
      key spelled as its full name. */
  lemma HighlightKnown(abbr: string, predictedClass: string)
    requires predictedClass in ClassNames
    ensures Highlight(abbr, predictedClass) <==> abbr == predictedClass || abbr == ClassNames[predictedClass]
  {
    if abbr in ClassNames {
      LabelInjective(abbr, predictedClass);
      assert abbr != ClassNames[predictedClass] by {
        assert ClassNames[predictedClass] !in ClassNames;
      }
    }
  }

  /** For a predicted class that is neither a key nor a full name, only a
      key equal to it is highlighted. */
  lemma HighlightUnknown(abbr: string, predictedClass: string)
    requires predictedClass !in ClassNames && predictedClass !in ClassNames.Values
    ensures Highlight(abbr, predictedClass) <==> abbr == predictedClass
  {
    LabelVerbatim(predictedClass, abbr);
  }

  /** The `.map` callback: one row keeps its key and probability and shows
      a full name or the key itself. */
  function ToRow(e: ClassProb, predictedClass: string): (r: Row)
    ensures (r.abbr, r.prob) == e
    ensures r.fullName == e.0 || r.fullName in ClassNames.Values
    ensures e.0 == predictedClass ==> r.highlight
  {
    Row(e.0, Label(e.0), e.1, Highlight(e.0, predictedClass))
  }

  /** `.map(([abbr, prob]) => ...)`: one row per entry, in order. */
  function Rows(entries: seq<ClassProb>, predictedClass: string): (r: seq<Row>)
    ensures |r| == |entries|
    ensures forall i :: 0 <= i < |entries| ==> r[i] == ToRow(entries[i], predictedClass)
  {
    if entries == [] then [] else [ToRow(entries[0], predictedClass)] + Rows(entries[1..], predictedClass)
  }

  /** The (key, probability) pairs behind a list of rows. */
  function Pairs(rows: seq<Row>): (r: seq<ClassProb>)
    ensures |r| == |rows|
    ensures forall i :: 0 <= i < |rows| ==> r[i] == (rows[i].abbr, rows[i].prob)
  {
    if rows == [] then [] else [(rows[0].abbr, rows[0].prob)] + Pairs(rows[1..])
  }

  /** `Prediction({ data })`: nothing without data; otherwise the predicted
      label and one row per entry, sorted stably by descending probability. */
  function Render(data: Option<PredictionResult>): (v: Option<View>)
    ensures v.None? <==> data.None?
    ensures v.Some? ==> v.value.predictedLabel == Label(data.value.predictedClass)
    ensures v.Some? ==>
      var entries, rows := data.value.classProbabilities, v.value.rows;
      && |rows| == |entries|
      && multiset(Pairs(rows)) == multiset(entries)
      && NonIncreasing(Pairs(rows))
      && (forall i :: 0 <= i < |rows| ==> rows[i].fullName == Label(rows[i].abbr))
      && (forall i :: 0 <= i < |rows| ==>
            rows[i].highlight == Highlight(rows[i].abbr, data.value.predictedClass))
  {
    match data
    case None => None
    case Some(result) =>
      var sorted := SortDesc(result.classProbabilities);
      var rows := Rows(sorted, result.predictedClass);
      SortDescPermutation(result.classProbabilities);
      assert Pairs(rows) == sorted;
      Some(View(Label(result.predictedClass), rows))
  }

  /** The table keeps the entries of equal probability in their original
      order, so it is the one table a stable descending sort can produce. */
  lemma RenderStable(result: PredictionResult, p: real)
    ensures WithProb(Pairs(Render(Some(result)).value.rows), p) == WithProb(result.classProbabilities, p)
    ensures Pairs(Render(Some(result)).value.rows) == SortDesc(result.classProbabilities)
  {
    var sorted := SortDesc(result.classProbabilities);
    assert Pairs(Render(Some(result)).value.rows) == sorted;
    SortDescStable(result.classProbabilities, p);
  }

  /** The worked example: `{mel: 0.1, nv: 0.7, bcc: 0.2}` is listed as
      nv, bcc, mel. */
  lemma SortExample()
    ensures SortDesc([("mel", 0.1), ("nv", 0.7), ("bcc", 0.2)]) == [("nv", 0.7), ("bcc", 0.2), ("mel", 0.1)]
  {
    var s: seq<ClassProb> := [("mel", 0.1), ("nv", 0.7), ("bcc", 0.2)];
    assert SortDesc(s[2..]) == [("bcc", 0.2)] by {
      assert s[2..][1..] == [];
    }
    assert s[1..][1..] == s[2..];
    assert SortDesc(s[1..]) == Insert(("nv", 0.7), [("bcc", 0.2)]) == [("nv", 0.7), ("bcc", 0.2)];
    var r: seq<ClassProb> := [("nv", 0.7), ("bcc", 0.2)];
    assert Insert(("mel", 0.1), r[2..]) == [("mel", 0.1)];
    assert Insert(("mel", 0.1), r[1..]) == [("bcc", 0.2), ("mel", 0.1)];
    assert Insert(("mel", 0.1), r) == [("nv", 0.7), ("bcc", 0.2), ("mel", 0.1)];
  }

  lemma ExampleRows()
    ensures Label("nv") == "Melanocytic Nevus"
    ensures ToRow(("nv", 0.7), "nv") == Row("nv", "Melanocytic Nevus", 0.7, true)
    ensures ToRow(("bcc", 0.2), "nv") == Row("bcc", "Basal Cell Carcinoma", 0.2, false)
    ensures ToRow(("mel", 0.1), "nv") == Row("mel", "Melanoma", 0.1, false)
  {
    LabelInjective("mel", "nv");
    LabelInjective("bcc", "nv");
  }

  lemma ExampleRowsOf()
    ensures Rows([("nv", 0.7), ("bcc", 0.2), ("mel", 0.1)], "nv") == [
              Row("nv", "Melanocytic Nevus", 0.7, true),
              Row("bcc", "Basal Cell Carcinoma", 0.2, false),
              Row("mel", "Melanoma", 0.1, false)]
  {
    ExampleRows();
  }

  lemma ExampleTable(d: PredictionResult)
    requires d == PredictionResult("nv", [("mel", 0.1), ("nv", 0.7), ("bcc", 0.2)])
    ensures Render(Some(d)).Some?
    ensures Render(Some(d)).value.rows == [
              Row("nv", "Melanocytic Nevus", 0.7, true),
              Row("bcc", "Basal Cell Carcinoma", 0.2, false),
              Row("mel", "Melanoma", 0.1, false)]
  {
    SortExample();
    ExampleRowsOf();
  }

  /** With "nv" predicted, the table shows the full names and highlights the
      nv row only. */
  lemma RenderExample(d: PredictionResult)
    requires d == PredictionResult("nv", [("mel", 0.1), ("nv", 0.7), ("bcc", 0.2)])
    ensures Render(Some(d)) == Some(View("Melanocytic Nevus", [
              Row("nv", "Melanocytic Nevus", 0.7, true),
              Row("bcc", "Basal Cell Carcinoma", 0.2, false),
              Row("mel", "Melanoma", 0.1, false)]))
  {
    ExampleTable(d);
    ExampleRows();
  }
}
