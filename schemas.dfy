/** The request and response bodies of the prediction endpoint. */
module Schemas {
  import opened Wrappers

  /** The number of features a request must carry (both the minimum and the maximum length). */
  const FeatureCount: nat := 4

  datatype PredictRequest = PredictRequest(features: seq<real>)

  /** The response carries an integer class label. */
  datatype PredictResponse = PredictResponse(prediction: int)

  /** Why a feature list was refused: the length check that failed, and the length found. */
  datatype ValidationError = TooShort(length: nat) | TooLong(length: nat)

  /** Builds a request from a feature list, checking the minimum length first and then the maximum. */
  function ValidateRequest(features: seq<real>): (r: Result<PredictRequest, ValidationError>)
    ensures r.Success? <==> |features| == 4
    ensures r.Success? ==> r.value.features == features
    ensures |features| < 4 ==> r == Failure(TooShort(|features|))
    ensures |features| > 4 ==> r == Failure(TooLong(|features|))
  {
    if |features| < FeatureCount then Failure(TooShort(|features|))
    else if |features| > FeatureCount then Failure(TooLong(|features|))
    else Success(PredictRequest(features))
  }

  /** The example request of the schema. */
  const Example: seq<real> := [5.1, 3.5, 1.4, 0.2]

  lemma ExampleIsValid()
    ensures ValidateRequest(Example) == Success(PredictRequest(Example))
  {
  }

  lemma TwoFeaturesRejected()
    ensures ValidateRequest([1.0, 2.0]) == Failure(TooShort(2))
  {
  }
}
