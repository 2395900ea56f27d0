/** The single-record inference path: the record frame is split into its
    categorical and numerical columns, the categorical part is encoded, the
    encoded columns and the raw numerical columns are combined into one row,
    the row is reindexed against the model's expected feature names, the
    model predicts, the label decoder names the class, and the label picks
    the page's visual cue. */
module Inference {
  import opened Errors
  import opened Frame
  import opened Record

  /** The three trained artifacts, loaded once and only read. Their code is
      not visible, so each capability is an uninterpreted function; `None`
      stands for a call that raises. */
  datatype Artifacts = Artifacts(
    transform: seq<Column> -> Option<seq<int>>,          // encoder: the one encoded row of the categorical frame
    featureNamesOut: seq<string> -> Option<seq<string>>, // encoder: the names of its output columns
    featureNamesIn: seq<string>,                         // model: the ordered feature names it was trained on
    predict: seq<Column> -> Option<int>,                 // model: the class id of the one-row aligned frame
    inverseTransform: int -> Option<string>)             // label decoder: the label of a class id

  /** The visual cue shown after a prediction. */
  datatype Cue = Balloons | Snow | NoCue

  datatype Prediction = Prediction(category: string, cue: Cue)

  /** The cue for a predicted label: balloons for "Premium", snow for
      "Street", nothing for any other label. */
  function CueFor(category: string): (c: Cue)
    ensures c == Balloons <==> category == "Premium"
    ensures c == Snow <==> category == "Street"
    ensures c == NoCue <==> category != "Premium" && category != "Street"
  {
    if category == "Premium" then Balloons
    else if category == "Street" then Snow
    else NoCue
  }

  /** The encoder returns both its row for this record and its feature names. */
  predicate EncoderReturns(a: Artifacts, r: EventRecord) {
    a.transform(CategoricalPart(r)).Some? && a.featureNamesOut(CategoricalCols).Some?
  }

  /** The names the encoder gives its output columns. */
  function EncodedNames(a: Artifacts): seq<string>
    requires a.featureNamesOut(CategoricalCols).Some?
  {
    a.featureNamesOut(CategoricalCols).value
  }

  /** The encoder row for a record. */
  function EncodedValues(a: Artifacts, r: EventRecord): seq<int>
    requires a.transform(CategoricalPart(r)).Some?
  {
    a.transform(CategoricalPart(r)).value
  }

  /** The encoder returns, with exactly one value per feature name. */
  predicate EncoderShapeAgrees(a: Artifacts, r: EventRecord) {
    EncoderReturns(a, r) && |EncodedValues(a, r)| == |EncodedNames(a)|
  }

  /** The encoder's feature names are pairwise distinct and none of them is
      a numerical column name. */
  predicate EncodedNamesFit(a: Artifacts) {
    && a.featureNamesOut(CategoricalCols).Some?
    && Distinct(EncodedNames(a))
    && forall n :: n in EncodedNames(a) ==> n !in NumericalCols
  }

  /** The combined row: the encoded categorical columns, then the raw
      numerical columns. */
  function CombinedRow(a: Artifacts, r: EventRecord): Result<seq<Column>> {
    var frame := RecordFrame(r);
    var cat :- Select(frame, CategoricalCols);
    var num :- Select(frame, NumericalCols);
    var values :- Returned(a.transform(cat), Transform);
    var names :- Returned(a.featureNamesOut(CategoricalCols), FeatureNamesOut);
    var encoded :- FromArray(Numbers(values), names);
    Ok(encoded + num)
  }

  /** The frame the model receives: the combined row reindexed against its
      expected feature names, with 0 for the names the row lacks. */
  function ModelInput(a: Artifacts, r: EventRecord): Result<seq<Column>> {
    var row :- CombinedRow(a, r);
    Reindex(row, a.featureNamesIn)
  }

  /** The whole inference path for one submitted record. */
  function Infer(a: Artifacts, r: EventRecord): Result<Prediction> {
    var x :- ModelInput(a, r);
    var id :- Returned(a.predict(x), Predict);
    var category :- Returned(a.inverseTransform(id), InverseTransform);
    Ok(Prediction(category, CueFor(category)))
  }

  /** The encoder receives the nine categorical values unchanged. The
      combined row exists exactly when the encoder returns one value per
      feature name; it then holds the encoded columns first, in the
      encoder's name order and with the encoder's values, followed by
      Guests, Budget and EventDuration with their submitted values.
      Otherwise the failing encoder call, or the shape mismatch, is
      reported. */
  lemma CombinedLayout(a: Artifacts, r: EventRecord)
    ensures CombinedRow(a, r).Ok? <==> EncoderShapeAgrees(a, r)
    ensures a.transform(CategoricalPart(r)).None? ==> CombinedRow(a, r) == Err(Raised(Transform))
    ensures a.transform(CategoricalPart(r)).Some? && a.featureNamesOut(CategoricalCols).None? ==>
              CombinedRow(a, r) == Err(Raised(FeatureNamesOut))
    ensures EncoderReturns(a, r) && !EncoderShapeAgrees(a, r) ==>
              CombinedRow(a, r) == Err(ShapeMismatch(|EncodedValues(a, r)|, |EncodedNames(a)|))
    ensures CombinedRow(a, r).Ok? ==>
              CombinedRow(a, r).value == Label(EncodedNames(a), Numbers(EncodedValues(a, r))) + NumericalPart(r)
  {
    SelectCategorical(r);
    SelectNumerical(r);
    if EncoderShapeAgrees(a, r) {
      var names, values := EncodedNames(a), Numbers(EncodedValues(a, r));
      assert FromArray(values, names).value == Label(names, values);
    }
  }

  /** The names of the numerical part are exactly the numerical list, once each. */
  lemma NumericalNames(r: EventRecord)
    ensures DistinctNames(NumericalPart(r))
    ensures forall n :: HasColumn(NumericalPart(r), n) <==> n in NumericalCols
  {
    var p := NumericalPart(r);
    assert p[0].name == "Guests" && p[1].name == "Budget" && p[2].name == "EventDuration";
  }

  /** When the encoder's shape agrees, the combined row has no repeated name
      exactly when the encoder's names are distinct and avoid the numerical
      names. */
  lemma CombinedDistinct(a: Artifacts, r: EventRecord)
    requires EncoderShapeAgrees(a, r)
    ensures CombinedRow(a, r).Ok?
    ensures DistinctNames(CombinedRow(a, r).value) <==> EncodedNamesFit(a)
  {
    CombinedLayout(a, r);
    NumericalNames(r);
    LabelThenDistinct(EncodedNames(a), Numbers(EncodedValues(a, r)), NumericalPart(r));
  }

  /** The model input is built exactly when the encoder returns one value
      per feature name and its names are distinct and avoid the numerical
      ones; a failure of the combined row is passed on, and a fitting shape
      with clashing names is a duplicate-label failure. */
  lemma ModelInputOutcome(a: Artifacts, r: EventRecord)
    ensures ModelInput(a, r).Ok? <==> EncoderShapeAgrees(a, r) && EncodedNamesFit(a)
    ensures !EncoderShapeAgrees(a, r) ==> ModelInput(a, r) == CombinedRow(a, r)
    ensures EncoderShapeAgrees(a, r) && !EncodedNamesFit(a) ==> ModelInput(a, r) == Err(DuplicateLabels)
  {
    CombinedLayout(a, r);
    if EncoderShapeAgrees(a, r) {
      CombinedDistinct(a, r);
    }
  }

  /** Inference succeeds exactly when the model input is built, the model
      returns a class id for it and the decoder returns a label for that id;
      the first failing step is reported. On success the category is the
      decoded prediction and the cue is the category's. */
  lemma InferOutcome(a: Artifacts, r: EventRecord)
    ensures ModelInput(a, r).Err? ==> Infer(a, r) == Err(ModelInput(a, r).error)
    ensures ModelInput(a, r).Ok? && a.predict(ModelInput(a, r).value).None? ==> Infer(a, r) == Err(Raised(Predict))
    ensures ModelInput(a, r).Ok? && a.predict(ModelInput(a, r).value).Some? &&
            a.inverseTransform(a.predict(ModelInput(a, r).value).value).None? ==>
              Infer(a, r) == Err(Raised(InverseTransform))
    ensures Infer(a, r).Ok? <==>
              && ModelInput(a, r).Ok?
              && a.predict(ModelInput(a, r).value).Some?
              && a.inverseTransform(a.predict(ModelInput(a, r).value).value).Some?
    ensures Infer(a, r).Ok? ==>
              var category := a.inverseTransform(a.predict(ModelInput(a, r).value).value).value;
              Infer(a, r).value == Prediction(category, CueFor(category))
  {
  }

  /** The model receives exactly its expected feature names, in its order:
      an encoded feature keeps the encoder's value, and a feature that is
      neither encoded nor numerical is 0. */
  lemma ModelInputValues(a: Artifacts, r: EventRecord)
    requires EncoderShapeAgrees(a, r) && EncodedNamesFit(a)
    ensures ModelInput(a, r).Ok?
    ensures var x, expected, names := ModelInput(a, r).value, a.featureNamesIn, EncodedNames(a);
            && |x| == |expected|
            && (forall i :: 0 <= i < |expected| ==> x[i].name == expected[i])
            && (forall i, j :: 0 <= i < |expected| && 0 <= j < |names| && names[j] == expected[i] ==>
                  x[i].cell == Number(EncodedValues(a, r)[j]))
            && (forall i :: 0 <= i < |expected| && expected[i] !in names && expected[i] !in NumericalCols ==>
                  x[i].cell == Number(0))
  {
    CombinedDistinct(a, r);
    CombinedLayout(a, r);
    NumericalNames(r);
    ReindexOfLayout(EncodedNames(a), EncodedValues(a, r), NumericalPart(r), CombinedRow(a, r).value, a.featureNamesIn);
  }

  /** Where the model expects Guests, Budget or EventDuration it receives
      the submitted value, unchanged. */
  lemma ModelInputNumerical(a: Artifacts, r: EventRecord)
    requires EncoderShapeAgrees(a, r) && EncodedNamesFit(a)
    ensures ModelInput(a, r).Ok?
    ensures var x, expected := ModelInput(a, r).value, a.featureNamesIn;
            && |x| == |expected|
            && (forall i :: 0 <= i < |expected| && expected[i] == "Guests" ==> x[i].cell == Number(r.guests))
            && (forall i :: 0 <= i < |expected| && expected[i] == "Budget" ==> x[i].cell == Number(r.budget))
            && (forall i :: 0 <= i < |expected| && expected[i] == "EventDuration" ==> x[i].cell == Number(r.eventDuration))
  {
    CombinedDistinct(a, r);
    CombinedLayout(a, r);
    var m := |EncodedNames(a)|;
    var cols := CombinedRow(a, r).value;
    ReindexOfLayout(EncodedNames(a), EncodedValues(a, r), NumericalPart(r), cols, a.featureNamesIn);
    assert cols[m] == Column("Guests", Number(r.guests));
    assert cols[m + 1] == Column("Budget", Number(r.budget));
    assert cols[m + 2] == Column("EventDuration", Number(r.eventDuration));
  }

  /** The cells a reindex of "labelled columns, then a tail" gives, stated on
      the labels and the tail. */
  lemma ReindexOfLayout(names: seq<string>, values: seq<int>, tail: seq<Column>, cols: seq<Column>, expected: seq<string>)
    requires |names| == |values|
    requires cols == Label(names, Numbers(values)) + tail
    requires DistinctNames(cols)
    ensures Reindex(cols, expected).Ok?
    ensures forall i, j :: 0 <= i < |expected| && 0 <= j < |names| && names[j] == expected[i] ==>
              Reindex(cols, expected).value[i].cell == Number(values[j])
    ensures forall j :: 0 <= j < |tail| ==> cols[|names| + j] == tail[j]
    ensures forall i :: 0 <= i < |expected| && expected[i] !in names && !HasColumn(tail, expected[i]) ==>
              Reindex(cols, expected).value[i].cell == Number(0)
  {
    var m := |names|;
    assert forall j :: 0 <= j < m ==> cols[j] == Column(names[j], Number(values[j]));
    assert forall j :: 0 <= j < |tail| ==> cols[m + j] == tail[j];
    forall n | n !in names && !HasColumn(tail, n) ensures !HasColumn(cols, n) {
      forall j | 0 <= j < |cols| ensures cols[j].name != n {
        if j < m {
          assert cols[j].name == names[j];
        } else {
          assert cols[j] == tail[j - m];
        }
      }
    }
  }

  /** Where the model expects Guests or EventDuration, it receives the value
      the slider allowed: 10 to 500 guests, 1 to 10 hours. */
  lemma ModelSeesSliderBounds(a: Artifacts, r: EventRecord, i: nat)
    requires FromForm(r)
    requires ModelInput(a, r).Ok?
    requires i < |a.featureNamesIn|
    ensures a.featureNamesIn[i] == "Guests" ==>
              ModelInput(a, r).value[i].cell.Number? && 10 <= ModelInput(a, r).value[i].cell.number <= 500
    ensures a.featureNamesIn[i] == "EventDuration" ==>
              ModelInput(a, r).value[i].cell.Number? && 1 <= ModelInput(a, r).value[i].cell.number <= 10
  {
    ModelInputOutcome(a, r);
    ModelInputNumerical(a, r);
  }

  /** The model input is already aligned: reindexing it again against the
      same (duplicate-free) expected names leaves it unchanged. */
  lemma ModelInputAligned(a: Artifacts, r: EventRecord)
    requires Distinct(a.featureNamesIn)
    requires ModelInput(a, r).Ok?
    ensures Reindex(ModelInput(a, r).value, a.featureNamesIn) == ModelInput(a, r)
  {
    ReindexIdempotent(CombinedRow(a, r).value, a.featureNamesIn);
  }

  /** No range is enforced on the path: whether the model input is built
      does not depend on the numerical values, so 9 or 501 guests are not
      rejected before the model. */
  lemma NoRangeCheck(a: Artifacts, r: EventRecord, guests: int, budget: int, duration: int)
    ensures var r' := r.(guests := guests, budget := budget, eventDuration := duration);
            ModelInput(a, r').Ok? <==> ModelInput(a, r).Ok?
  {
    var r' := r.(guests := guests, budget := budget, eventDuration := duration);
    assert CategoricalPart(r') == CategoricalPart(r);
    ModelInputOutcome(a, r);
    ModelInputOutcome(a, r');
  }

  /** A wedding record with a blank special request: it satisfies the
      slider bounds, the blank string reaches the encoder unchanged, and
      the model input is built whenever the encoder's shape and names fit. */
  lemma BlankSpecialRequest(a: Artifacts)
    ensures var r := EventRecord("Wedding", 200, 500000, 5, "Indoor", "Winter", "Evening", "Mixed",
                                 "North Indian", "Mixed", "Buffet", "");
            && FromForm(r)
            && CategoricalPart(r)[8] == Column("SpecialRequests", Text(""))
            && (EncoderShapeAgrees(a, r) && EncodedNamesFit(a) ==> ModelInput(a, r).Ok?)
  {
    var r := EventRecord("Wedding", 200, 500000, 5, "Indoor", "Winter", "Evening", "Mixed",
                         "North Indian", "Mixed", "Buffet", "");
    ModelInputOutcome(a, r);
  }
}
