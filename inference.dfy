/**
 * The request and response shapes of `POST /predict` and what the handler does
 * with a loaded model: reject an empty request, call the classifier, turn its
 * exceptions into client errors, and hand back its per-row outputs.
 * The classifier is opaque: one function giving a label per row, one giving a
 * vector of class scores per row, either of which may raise.
 */
module Inference {
  import opened Results
  import Naming

  /** A raised exception, with the text `str(exc)` gives. */
  datatype Exc = Exc(message: string)

  datatype Response<S> =
    | Predicted(predictions: seq<int>, probabilities: seq<S>)  // `PredictionResponse`
    | HttpError(status: nat, detail: string)                   // an `HTTPException` raised by the handler
    | Unprocessable(emptyRows: seq<nat>)                       // request validation failed (422)
    | InternalError                                            // an exception nobody catches (500)

  const NoRowsDetail: string := "No feature rows provided."
  const InferenceFailedPrefix: string := "Model inference failed: "

  /**
   * The rows `conlist(float, min_items=1)` rejects, by index in increasing
   * order; the request is accepted exactly when there are none.
   */
  function EmptyRows<F>(rows: seq<seq<F>>): (r: seq<nat>)
    ensures forall k: nat :: k in r <==> k < |rows| && |rows[k]| == 0
    ensures forall i, j :: 0 <= i < j < |r| ==> r[i] < r[j]
  {
    if rows == [] then []
    else
      var last := |rows| - 1;
      var before := EmptyRows(rows[..last]);
      assert forall i :: 0 <= i < |before| ==> before[i] in before && before[i] < last;
      before + (if |rows[last]| == 0 then [last] else [])
  }

  /**
   * All rows have the same length, so `np.array(features, dtype=float)` gives
   * a matrix; measured against the first row, which is the same as every pair
   * of rows agreeing.
   */
  predicate Rectangular<F>(rows: seq<seq<F>>): (b: bool)
    ensures b <==> forall i, j :: 0 <= i < |rows| && 0 <= j < |rows| ==> |rows[i]| == |rows[j]|
  {
    forall i :: 0 <= i < |rows| ==> |rows[i]| == |rows[0]|
  }

  /** The text numpy gives the `IndexError` of `[:, 1]` on a matrix with one column or none. */
  function ColumnMessage(width: nat): string
  {
    "index 1 is out of bounds for axis 1 with size " + Naming.Decimal(width)
  }

  /** `proba[:, 1]`: the second score of every row, or an `IndexError` if some row has fewer than two. */
  function PositiveColumn<S>(proba: seq<seq<S>>): (r: Result<seq<S>, Exc>)
    ensures r.Ok? <==> forall i :: 0 <= i < |proba| ==> |proba[i]| >= 2
    ensures r.Ok? ==> |r.value| == |proba| && forall i :: 0 <= i < |proba| ==> r.value[i] == proba[i][1]
    ensures r.Err? ==> exists i :: 0 <= i < |proba| && |proba[i]| < 2 && r.error == Exc(ColumnMessage(|proba[i]|))
  {
    if proba == [] then Ok([])
    else if |proba[0]| < 2 then Err(Exc(ColumnMessage(|proba[0]|)))
    else
      match PositiveColumn(proba[1..])
      case Err(e) => Err(e)
      case Ok(rest) => Ok([proba[0][1]] + rest)
  }

  /** The `HTTPException` for a failed model call. */
  function InferenceFailure<S>(e: Exc): Response<S>
  {
    HttpError(400, InferenceFailedPrefix + e.message)
  }

  /**
   * Lines 75-88 of the handler, given the loaded model: the empty-request
   * check, the matrix conversion (outside the `try`), the two model calls and
   * the column selection (inside it), and the response.
   */
  function Infer<M, F, S>(model: M, rows: seq<seq<F>>,
                          labelsOf: (M, seq<seq<F>>) -> Result<seq<int>, Exc>,
                          scoresOf: (M, seq<seq<F>>) -> Result<seq<seq<S>>, Exc>): (r: Response<S>)
    ensures |rows| == 0 ==> r == HttpError(400, NoRowsDetail)
    ensures r.InternalError? <==> |rows| > 0 && !Rectangular(rows)
    ensures !r.Unprocessable?
    ensures r.Predicted? <==>
      && |rows| > 0 && Rectangular(rows)
      && labelsOf(model, rows).Ok? && scoresOf(model, rows).Ok?
      && forall i :: 0 <= i < |scoresOf(model, rows).value| ==> |scoresOf(model, rows).value[i]| >= 2
    ensures r.Predicted? ==>
      && r.predictions == labelsOf(model, rows).value
      && |r.probabilities| == |scoresOf(model, rows).value|
      && forall i :: 0 <= i < |r.probabilities| ==> r.probabilities[i] == scoresOf(model, rows).value[i][1]
    ensures r.HttpError? && |rows| > 0 ==>
      && r.status == 400
      && |r.detail| >= |InferenceFailedPrefix| && r.detail[..|InferenceFailedPrefix|] == InferenceFailedPrefix
  {
    if |rows| == 0 then HttpError(400, NoRowsDetail)
    else if !Rectangular(rows) then InternalError
    else
      match labelsOf(model, rows)
      case Err(e) => InferenceFailure(e)
      case Ok(labels) =>
        match scoresOf(model, rows)
        case Err(e) => InferenceFailure(e)
        case Ok(proba) =>
          match PositiveColumn(proba)
          case Err(e) => InferenceFailure(e)
          case Ok(scores) => Predicted(labels, scores)
  }

  /** An empty request is answered without consulting the classifier at all. */
  lemma EmptyRequestNeverCallsModel<M, F, S>(model: M,
      labels1: (M, seq<seq<F>>) -> Result<seq<int>, Exc>, scores1: (M, seq<seq<F>>) -> Result<seq<seq<S>>, Exc>,
      labels2: (M, seq<seq<F>>) -> Result<seq<int>, Exc>, scores2: (M, seq<seq<F>>) -> Result<seq<seq<S>>, Exc>)
    ensures Infer(model, [], labels1, scores1) == Infer(model, [], labels2, scores2)
    ensures Infer(model, [], labels1, scores1) == HttpError(400, NoRowsDetail)
  {
  }

  /** A failing model call is reported with the prefix followed by the exception's own text. */
  lemma FailureCarriesCause<M, F, S>(model: M, rows: seq<seq<F>>,
      labelsOf: (M, seq<seq<F>>) -> Result<seq<int>, Exc>, scoresOf: (M, seq<seq<F>>) -> Result<seq<seq<S>>, Exc>)
    requires |rows| > 0 && Rectangular(rows)
    ensures labelsOf(model, rows).Err? ==>
      Infer(model, rows, labelsOf, scoresOf) == HttpError(400, InferenceFailedPrefix + labelsOf(model, rows).error.message)
    ensures labelsOf(model, rows).Ok? && scoresOf(model, rows).Err? ==>
      Infer(model, rows, labelsOf, scoresOf) == HttpError(400, InferenceFailedPrefix + scoresOf(model, rows).error.message)
  {
  }

  /** A classifier that labels and scores each row on its own. */
  function RowwiseLabels<M, F>(rowLabel: (M, seq<F>) -> int): (M, seq<seq<F>>) -> Result<seq<int>, Exc>
  {
    (m: M, x: seq<seq<F>>) => Ok(seq(|x|, i requires 0 <= i < |x| => rowLabel(m, x[i])))
  }

  function RowwiseScores<M, F, S>(score: (M, seq<F>) -> seq<S>): (M, seq<seq<F>>) -> Result<seq<seq<S>>, Exc>
  {
    (m: M, x: seq<seq<F>>) => Ok(seq(|x|, i requires 0 <= i < |x| => score(m, x[i])))
  }

  /**
   * For a row-by-row classifier with at least two classes, the response has
   * one prediction and one probability per input row, in input order.
   */
  lemma RowwiseModelKeepsRowOrder<M, F, S>(model: M, rows: seq<seq<F>>,
                                           rowLabel: (M, seq<F>) -> int, score: (M, seq<F>) -> seq<S>)
    requires |rows| > 0 && Rectangular(rows)
    requires forall i :: 0 <= i < |rows| ==> |score(model, rows[i])| >= 2
    ensures var r := Infer(model, rows, RowwiseLabels(rowLabel), RowwiseScores(score));
      && r.Predicted?
      && |r.predictions| == |rows| && |r.probabilities| == |rows|
      && (forall i :: 0 <= i < |rows| ==> r.predictions[i] == rowLabel(model, rows[i]))
      && (forall i :: 0 <= i < |rows| ==> r.probabilities[i] == score(model, rows[i])[1])
  {
  }
}
