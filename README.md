# FlutterFeista inference path, modelled in Dafny

FlutterFeista predicts a food category ("Premium", "Street", …) for an event
from twelve submitted attributes. This project models the single-record
inference path of `app.py`, which runs once the form is submitted:

1. The submitted values become a one-row frame with twelve named columns
   (`Record.RecordFrame`, `Record.EventRecord`).
2. The frame is split by two fixed name lists. Nine categorical names go in
   `Record.CategoricalCols` and three numerical names in `Record.NumericalCols`.
   The split uses column selection by name (`Frame.Select`).
3. The categorical part goes through the trained encoder. Its single output
   row is labelled with the encoder's reported feature names
   (`Frame.FromArray`). This fails when the row and the names differ in length.
4. The encoded columns come first, then the raw numerical columns
   (`Inference.CombinedRow`).
5. The combined row is reindexed against the model's expected feature names,
   with fill value 0 (`Frame.Reindex`, built on `Frame.Align` and `Frame.AsRow`).
   A row with a repeated column name cannot be reindexed.
6. The model predicts a class id and the label decoder turns it into a
   category. The category picks the visual cue: balloons, snow or none
   (`Inference.Infer`, `Inference.CueFor`).

The encoder, the classifier and the label decoder are opaque trained objects.
They are uninterpreted function fields of `Inference.Artifacts`. Each of the
four calls into them (the encoder's transform and its feature names, the
classifier's prediction, the decoder's inverse transform) may raise: it
returns an `Errors.Option`, and `None` becomes the failure
`Errors.Raised(call)` (`Errors.Returned`). An unseen category, which free-text
special requests make likely, is one such failure of the transform. Whether
the encoder returns (`Inference.EncoderReturns`), whether its shapes agree
(`Inference.EncoderShapeAgrees`) and whether its names fit
(`Inference.EncodedNamesFit`) are stated as conditions, and the lemmas say
what happens in each case.

The values the sliders allow (10 to 500 guests, 1 to 10 hours) form the
predicate `Record.FromForm`. The code itself never checks them, so the
pipeline does not require them. `Inference.NoRangeCheck` states that the
numerical values never decide whether the model input is built.

The code neither normalises nor validates the record. A blank special request
reaches the encoder as the empty string (`Inference.BlankSpecialRequest`), and
Budget has no lower bound. The only failures modelled are these:

- a selected column missing,
- a trained artifact raising on its input,
- a row/name length mismatch,
- a repeated column name at reindexing.

Files: `errors.dfy` holds the option and result types and the failures,
`frame.dfy` holds the frame operations, `record.dfy` the record and its
split, and `inference.dfy` the artifacts, the pipeline and the cue.

## Model

| member | source | states |
|---|---|---|
| Frame.Lookup | app.py:58-59 | a column is found by name exactly when the frame has a column of that name, and the cell found belongs to such a column |
| Frame.FirstMissing | app.py:58-59 | the position of the first requested name the frame lacks; every earlier name is present |
| Frame.Select | app.py:58-59 | selection succeeds exactly when every requested name is a column. Its result holds the requested columns in request order, each with that column's cell. On failure it reports a name that was requested and is missing. |
| Frame.FromArray | app.py:62 | labelling an encoded row with feature names succeeds exactly when the lengths agree. It then pairs each name with the value at its position; otherwise it fails with both lengths. |
| Frame.AsRow | app.py:66 | a frame without repeated names, read as a name-to-cell map, has exactly the frame's names as keys and maps each column's name to its cell |
| Frame.Align | app.py:66 | one entry per expected name, in expected order: the row's value for a name the row has, the fill value for one it lacks |
| Frame.Reindex | app.py:66 | reindexing succeeds exactly when the row repeats no column name, else it reports duplicate labels. The result has exactly the expected names in expected order, takes the row's cell for a name the row has, and 0 for one it lacks. |
| Frame.AlignIgnoresUnexpected | app.py:66 | adding or removing a row entry whose name is not expected leaves the aligned vector unchanged |
| Frame.AlignIdempotent | app.py:66 | reading an aligned vector back as a row under the expected names and aligning it again gives the same vector |
| Frame.ReindexIdempotent | app.py:66 | reindexing a reindexed frame again against the same distinct expected names gives the same frame |
| Frame.ReindexIgnoresUnexpected | app.py:66 | appending a column whose name is neither expected nor already present does not change the reindex result, success or failure |
| Record.RecordFrameNames | app.py:40-53 | the record frame has twelve columns, named in the order of the record literal |
| Record.RecordFrameDistinct | app.py:40-53 | no two columns of the record frame share a name |
| Record.SplitIsPartition | app.py:40-56 | neither list repeats a name and the lists are disjoint. Together they name exactly the twelve record columns, none extra and none missing. |
| Record.CategoricalPresent | app.py:58 | selecting the categorical names from a record frame never fails |
| Record.NumericalPresent | app.py:59 | selecting the numerical names from a record frame never fails |
| Record.SelectCategorical | app.py:55-58 | the categorical selection is exactly the nine submitted categorical values, unchanged, in list order |
| Record.SelectNumerical | app.py:56-59 | the numerical selection is exactly Guests, Budget and EventDuration with their submitted values, in that order |
| Inference.CueFor | app.py:73-76 | the cue is balloons exactly for "Premium", snow exactly for "Street", and none for every other category |
| Inference.CombinedLayout | app.py:58-64 | the encoder receives the nine categorical values unchanged. The combined row exists exactly when the transform and the feature names both return and give one value per name; otherwise it reports the transform raising, then the feature names raising, then the shape error. It is the encoded columns in encoder name order with the encoder's values, followed by Guests, Budget and EventDuration unchanged. |
| Inference.CombinedDistinct | app.py:61-64 | given agreeing shapes, the combined row repeats no name exactly when the encoder's names are distinct and avoid the numerical names |
| Inference.ModelInputOutcome | app.py:55-66 | the model input is built exactly when the encoder returns, its shapes agree and its names fit. A failure of the combined row is passed on; agreeing shapes with clashing names give duplicate labels. |
| Inference.InferOutcome | app.py:55-76 | a failure to build the model input is passed on; then the classifier raising, then the decoder raising, is reported. Inference succeeds exactly when the input is built and both calls return. On success the category is the decoded prediction on the aligned frame and the cue is that category's. |
| Inference.ModelInputValues | app.py:61-66 | the model receives exactly its expected names in its order. An encoded feature carries the encoder's value; a name neither encoded nor numerical carries 0. |
| Inference.ModelInputNumerical | app.py:59-66 | where the model expects Guests, Budget or EventDuration it receives the submitted value unchanged |
| Inference.ModelSeesSliderBounds | app.py:21-23 | for a record from the form, the Guests feature the model receives lies in 10..500 and the EventDuration feature in 1..10 |
| Inference.ModelInputAligned | app.py:66 | the model input is a fixed point of reindexing against distinct expected names |
| Inference.NoRangeCheck | app.py:40-66 | changing Guests, Budget or EventDuration never changes whether the model input is built: no range is enforced before the model |
| Inference.BlankSpecialRequest | app.py:35-53 | the wedding record with a blank special request satisfies the slider bounds and reaches the encoder with SpecialRequests as the empty string. Its model input is built whenever the encoder's shapes and names fit. |
| Errors.Returned | app.py:61-70 | an artifact call that returns passes its value on; one that raises becomes the failure naming that call |
| Record.FromForm | app.py:21-23 | the slider bounds, 10 to 500 guests and 1 to 10 hours; its effect on the model input is stated by `Inference.ModelSeesSliderBounds` |
| Record.RecordFrame | app.py:40-53 | the one-row record frame; its names and order are stated by `Record.RecordFrameNames`, its split by `Record.SplitIsPartition` |
| Inference.CombinedRow | app.py:58-64 | the combined row; its contents and failures are stated by `Inference.CombinedLayout` |
| Inference.ModelInput | app.py:66 | the reindexed model input; its values are stated by `Inference.ModelInputValues` and its outcome by `Inference.ModelInputOutcome` |
| Inference.Infer | app.py:55-76 | the whole path; its outcome is stated by `Inference.InferOutcome` |

## Left out

- Streamlit presentation (page configuration, form widgets and layout, success banner, closing markdown): UI only. What the sliders guarantee is kept as `Record.FromForm`.
- The choice lists of the select boxes: the code never relies on them, and the record type carries any string.
- Loading the three artifacts from pickle files: file I/O. The artifacts are a parameter of every pipeline function.
- Internals of the encoder's transform and feature names, the classifier's prediction and the label decoder: foreign code that is not visible. They are uninterpreted functions. One-hot vocabularies, classifier arithmetic and the class-id-to-label mapping are not modelled.
- Floating point: the encoder's output values are integers here, and the classifier's internal numerics are not modelled. Budget, Guests and EventDuration are integers in the code too.
- Which inputs make a trained artifact raise (an unseen category, an unknown class id) is not modelled: a raise is an uninterpreted outcome of the call.
- Frame.Reindex: any repeated column name in the row is treated as the reindexing error. Finer library behaviour for such rows is not modelled.
- Frame.Select: on failure it reports the first missing name rather than all of them. On a frame with repeated names it yields one column per requested name; the record frame has no repeated names.
- Frames are single-row, matching the one-record submission. Column data types beyond text or number, and the row index reset before concatenation, are not modelled.
