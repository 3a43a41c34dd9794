/** The per-unit classifier (module-level `calculation_Encode`): from a unit's
    per-identity group means and its two cut-offs, the identities it encodes
    strongly (`encode`) and weakly (`weak_encode`). */
module Encoding {
  import opened NdArray

  /** What `calculation_unit_responses` hands the classifier for one unit:
      the group mean per identity, the total-variance cut-off `threshold`
      and the between-group cut-off `ref`. */
  datatype UnitResponse = UnitResponse(localMeans: seq<real>, threshold: real, ref: real)

  /** One unit's classification: both index arrays into the identities. */
  datatype UnitEncoding = UnitEncoding(encode: seq<int>, weakEncode: seq<int>)

  /** What every classification the classifier returns satisfies. */
  predicate WellFormed(e: UnitEncoding) {
    && StrictlyIncreasing(e.encode)
    && StrictlyIncreasing(e.weakEncode)
    && (forall x :: x in e.encode ==> x !in e.weakEncode)
  }

  /** Both arrays index identities `0..numClasses-1`. */
  predicate InRange(e: UnitEncoding, numClasses: nat) {
    && (forall x :: x in e.encode ==> 0 <= x < numClasses)
    && (forall x :: x in e.weakEncode ==> 0 <= x < numClasses)
  }

  /** `encode`: the identities whose mean is strictly above `threshold`;
      `weak_encode`: those strictly above `ref` that are not in `encode`. */
  function CalculationEncode(localMeans: seq<real>, threshold: real, ref: real): (e: UnitEncoding)
    ensures WellFormed(e) && InRange(e, |localMeans|)
    ensures forall i :: i in e.encode <==> 0 <= i < |localMeans| && localMeans[i] > threshold
    ensures forall i :: i in e.weakEncode <==>
      0 <= i < |localMeans| && localMeans[i] > ref && !(localMeans[i] > threshold)
  {
    var encode := WhereGreater(localMeans, threshold);
    UnitEncoding(encode, SetDiff1d(WhereGreater(localMeans, ref), encode))
  }

  /** The classifier applied to every unit of a layer, in unit order. */
  function EncodeLayer(responses: seq<UnitResponse>): (encs: seq<UnitEncoding>)
    ensures |encs| == |responses|
    ensures forall u :: 0 <= u < |responses| ==> WellFormed(encs[u]) && InRange(encs[u], |responses[u].localMeans|)
    ensures forall u :: 0 <= u < |responses| ==>
      encs[u] == CalculationEncode(responses[u].localMeans, responses[u].threshold, responses[u].ref)
  {
    seq(|responses|, u requires 0 <= u < |responses| =>
      CalculationEncode(responses[u].localMeans, responses[u].threshold, responses[u].ref))
  }

  /** When exactly one identity's mean is above `threshold`, `encode` is that identity alone. */
  lemma OnlyIdentityAboveThreshold(localMeans: seq<real>, threshold: real, ref: real, i: nat)
    requires i < |localMeans| && localMeans[i] > threshold
    requires forall j :: 0 <= j < |localMeans| && j != i ==> localMeans[j] <= threshold
    ensures CalculationEncode(localMeans, threshold, ref).encode == [i]
  {
    var e := CalculationEncode(localMeans, threshold, ref);
    IncreasingDeterminedByElements(e.encode, [i]);
  }

  /** A unit none of whose means exceeds either cut-off (a constant response,
      whose means all equal the global mean and whose spreads are zero,
      is one) encodes nothing, strongly or weakly. */
  lemma NothingAboveCutOffs(localMeans: seq<real>, threshold: real, ref: real)
    requires forall j :: 0 <= j < |localMeans| ==> localMeans[j] <= threshold && localMeans[j] <= ref
    ensures CalculationEncode(localMeans, threshold, ref) == UnitEncoding([], [])
  {
    var e := CalculationEncode(localMeans, threshold, ref);
    IncreasingDeterminedByElements(e.encode, []);
    IncreasingDeterminedByElements(e.weakEncode, []);
  }

  /** Two identities with means 1 and 10, whose cut-offs both come to 14.5,
      are below both, so the unit encodes nothing. */
  lemma TwoIdentityScenario()
    ensures CalculationEncode([1.0, 10.0], 14.5, 14.5) == UnitEncoding([], [])
  {
    NothingAboveCutOffs([1.0, 10.0], 14.5, 14.5);
  }
}
