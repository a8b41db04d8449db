// scaleAccuracyTo68PercentConfidence: rescales a horizontal accuracy given
// at some confidence below 68% to 68% with a Gaussian 2-D scaling table.

module Confidence {

  /** One row of the confScalers table: confidences up to `confidence` use `scaler`. */
  datatype ConfScaler = ConfScaler(confidence: int, scaler: real)

  /** The confScalers table, in ascending order of confidence. */
  const ConfScalers: seq<ConfScaler> :=
    [ConfScaler(39, 1.517), ConfScaler(50, 1.287), ConfScaler(63, 1.072)]

  /** Confidence below which the accuracy is rescaled. */
  const TARGET_CONFIDENCE: int := 68

  /** Confidence that a circular uncertainty is taken to have. */
  const CIRCULAR_CONFIDENCE: int := 63

  /** Reference definition of the scale factor: the 0-39, 40-50 and 51-63
      buckets, and no scaling above 63. */
  function ScaleFactor(confidence: int): (f: real)
    ensures f >= 1.0
    ensures confidence > 63 <==> f == 1.0
  {
    if confidence <= 39 then 1.517
    else if confidence <= 50 then 1.287
    else if confidence <= 63 then 1.072
    else 1.0
  }

  /** The confidence the table is consulted with. */
  function EffectiveConfidence(confidence: int, isCircularUnc: bool): int {
    if isCircularUnc then CIRCULAR_CONFIDENCE else confidence
  }

  /** The accuracy after rescaling, as a function of the inputs. */
  function ScaledAccuracy(confidence: int, accuracy: real, isCircularUnc: bool): real {
    if confidence < TARGET_CONFIDENCE
    then accuracy * ScaleFactor(EffectiveConfidence(confidence, isCircularUnc))
    else accuracy
  }

  /** scaleAccuracyTo68PercentConfidence: walks the table and multiplies the
      accuracy by the scaler of the first row whose confidence is not below
      the effective confidence, then stops. */
  method ScaleAccuracyTo68PercentConfidence(confidence: int, accuracy: real, isCircularUnc: bool)
    returns (scaled: real, multiplications: nat)
    requires 0 <= confidence < 256   // uint8_t
    ensures scaled == ScaledAccuracy(confidence, accuracy, isCircularUnc)
    ensures multiplications <= 1
    ensures confidence >= TARGET_CONFIDENCE ==> multiplications == 0
  {
    scaled, multiplications := accuracy, 0;
    if confidence < TARGET_CONFIDENCE {
      var real_conf := if isCircularUnc then CIRCULAR_CONFIDENCE else confidence;
      assert ConfScalers[0] == ConfScaler(39, 1.517) && ConfScalers[1] == ConfScaler(50, 1.287)
          && ConfScalers[2] == ConfScaler(63, 1.072);
      var iter := 0;
      while iter < |ConfScalers|
        invariant 0 <= iter <= |ConfScalers|
        invariant forall k :: 0 <= k < iter ==> real_conf > ConfScalers[k].confidence
        invariant scaled == accuracy && multiplications == 0
      {
        if real_conf <= ConfScalers[iter].confidence {
          scaled := scaled * ConfScalers[iter].scaler;
          multiplications := multiplications + 1;
          assert ConfScalers[iter].scaler == ScaleFactor(real_conf);
          break;
        }
        iter := iter + 1;
      }
      assert multiplications == 0 ==> ScaleFactor(real_conf) == 1.0;
    }
  }

  /** A confidence of 68% or more leaves the accuracy as it is; below that the
      accuracy never shrinks, and lower confidences are scaled up at least as much. */
  lemma ScaleFactorMonotone(c1: int, c2: int)
    requires c1 <= c2
    ensures ScaleFactor(c1) >= ScaleFactor(c2)
  {
  }

  /** A circular uncertainty is always scaled by 1.072; a declared confidence
      of 64 to 67 falls past the last bucket and is left unscaled. */
  lemma CircularAndUncoveredConfidences(confidence: int, accuracy: real)
    requires 0 <= confidence < TARGET_CONFIDENCE
    ensures ScaledAccuracy(confidence, accuracy, true) == accuracy * 1.072
    ensures confidence > 63 ==> ScaledAccuracy(confidence, accuracy, false) == accuracy
  {
  }
}
