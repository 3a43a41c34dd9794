/** The analysis object (`FSA_Encode`): it keeps, per layer of the run, every
    unit's encoding and the ten base categories of the units, and computes
    the frequency map from them. */
module Analysis {
  import opened Wrappers
  import opened NdArray
  import opened Encoding
  import opened Taxonomy
  import opened Sorting
  import opened Frequency

  /** The first run position at or after `j` whose layer has no unit responses
      or no ANOVA indices, or the run's length when there is none. */
  function FirstMissing(layers: seq<string>, anova: map<string, seq<int>>,
                        responses: map<string, seq<UnitResponse>>, j: nat): (n: nat)
    requires j <= |layers|
    ensures j <= n <= |layers|
    ensures forall i :: j <= i < n ==> layers[i] in responses && layers[i] in anova
    ensures n < |layers| ==> layers[n] !in responses || layers[n] !in anova
    decreases |layers| - j
  {
    if j == |layers| || layers[j] !in responses || layers[j] !in anova then j
    else FirstMissing(layers, anova, responses, j + 1)
  }

  /** Every stored layer has its encodings and its sort, the sort is the one
      its ANOVA indices and encodings determine, and the encodings are what
      the classifier returns. */
  ghost predicate Consistent(anova: map<string, seq<int>>, encodeDict: map<string, seq<UnitEncoding>>,
                             sortDict: map<string, LayerSort>) {
    && encodeDict.Keys == sortDict.Keys
    && (forall l :: l in sortDict ==> l in anova && sortDict[l] == SortLayer(anova[l], encodeDict[l]))
    && (forall l :: l in encodeDict ==> AllWellFormed(encodeDict[l]))
  }

  /** A consistent store's sorts cover every base type and index units of their layers. */
  lemma ConsistentSorts(anova: map<string, seq<int>>, encodeDict: map<string, seq<UnitEncoding>>,
                        sortDict: map<string, LayerSort>)
    requires Consistent(anova, encodeDict, sortDict)
    ensures forall l :: l in sortDict ==> Complete(sortDict[l])
    ensures SortsBelow(encodeDict, sortDict)
  {
    forall l | l in sortDict
      ensures Complete(sortDict[l])
      ensures forall b, i :: b in sortDict[l] && 0 <= i < |sortDict[l][b]| ==> 0 <= sortDict[l][b][i] < |encodeDict[l]|
    {
      SortLayerPartition(anova[l], encodeDict[l]);
    }
  }

  ghost predicate AllWellFormed(encs: seq<UnitEncoding>) {
    forall u :: 0 <= u < |encs| ==> WellFormed(encs[u])
  }

  /** Storing a layer's encodings and its sort keeps the store consistent. */
  lemma StoreLayer(anova: map<string, seq<int>>, encodeDict: map<string, seq<UnitEncoding>>,
                   sortDict: map<string, LayerSort>, l: string, encs: seq<UnitEncoding>)
    requires Consistent(anova, encodeDict, sortDict)
    requires l in anova && AllWellFormed(encs)
    ensures Consistent(anova, encodeDict[l := encs], sortDict[l := SortLayer(anova[l], encs)])
  {
    var ed := encodeDict[l := encs];
    var sd := sortDict[l := SortLayer(anova[l], encs)];
    assert ed.Keys == sd.Keys;
    forall m | m in sd
      ensures m in anova && m in ed && sd[m] == SortLayer(anova[m], ed[m]) && AllWellFormed(ed[m])
    {
      if m != l {
        assert sd[m] == sortDict[m] && ed[m] == encodeDict[m];
      }
    }
  }

  /** Every stored layer's encodings are the classifier applied to its responses. */
  ghost predicate EncodedFrom(encodeDict: map<string, seq<UnitEncoding>>, responses: map<string, seq<UnitResponse>>) {
    forall l :: l in encodeDict ==> l in responses && encodeDict[l] == EncodeLayer(responses[l])
  }

  lemma EncodedStore(encodeDict: map<string, seq<UnitEncoding>>, responses: map<string, seq<UnitResponse>>, l: string)
    requires EncodedFrom(encodeDict, responses) && l in responses
    ensures EncodedFrom(encodeDict[l := EncodeLayer(responses[l])], responses)
  {
  }

  /** The loop over one sorted layer's names in `calculation_freq_map`: each
      name's frequency vector over the unit count at run position `idx`;
      the division fails, at the first name, when identities are counted and
      that count is missing or zero. */
  method LayerFreq(layers: seq<string>, units: seq<int>, numClasses: nat,
                   idx: nat, sortLayer: map<string, seq<int>>, encodeLayer: seq<UnitEncoding>)
    returns (r: Result<map<string, seq<real>>, Error>)
    requires idx < |layers|
    requires SortedBelow(sortLayer, |encodeLayer|)
    ensures r.Failure? <==> sortLayer != map[] && Divisor(layers, units, idx).Failure? && numClasses > 0
    ensures r.Failure? ==> r.error == Divisor(layers, units, idx).error
    ensures r.Success? ==> (numClasses == 0 || Total(units, idx) != 0 || sortLayer == map[])
    ensures r.Success? && (numClasses == 0 || Total(units, idx) != 0) ==>
      r.value == FreqLayer(encodeLayer, sortLayer, numClasses, Total(units, idx))
    ensures r.Success? && sortLayer == map[] ==> r.value == map[]
  {
    var freq: map<string, seq<real>> := map[];
    var pending := sortLayer.Keys;
    while pending != {}
      invariant pending <= sortLayer.Keys
      invariant freq.Keys == sortLayer.Keys - pending
      invariant pending != sortLayer.Keys ==> numClasses == 0 || Total(units, idx) != 0
      invariant forall k :: k in freq ==>
        (numClasses == 0 || Total(units, idx) != 0)
        && freq[k] == FreqVector(IdPool(encodeLayer, sortLayer[k], EncodeTypeCheck(k)), numClasses, Total(units, idx))
      decreases pending
    {
      var k :| k in pending;
      var pool := IdPool(encodeLayer, sortLayer[k], EncodeTypeCheck(k));
      if numClasses > 0 {
        var d := Divisor(layers, units, idx);
        if d.Failure? {
          return Failure(d.error);
        }
      }
      freq := freq[k := FreqVector(pool, numClasses, Total(units, idx))];
      pending := pending - {k};
    }
    if numClasses == 0 || Total(units, idx) != 0 {
      FreqLayerFrom(encodeLayer, sortLayer, numClasses, Total(units, idx), freq);
    }
    return Success(freq);
  }

  /** One pass of the layer loop in `calculation_freq_map`: looking the
      layer up in both tables raises when either lacks it; then the
      layer's frequencies are written under its name. */
  method LayerStep(layers: seq<string>, units: seq<int>, numClasses: nat,
                   encodeDict: map<string, seq<UnitEncoding>>, sorted: map<string, map<string, seq<int>>>, idx: nat)
    returns (r: Result<map<string, seq<real>>, Error>)
    requires idx < |layers|
    requires ExpandedBelow(encodeDict, sorted)
    requires forall l :: l in sorted ==> sorted[l] != map[]
    requires forall j :: 0 <= j < idx ==> Ready(layers, units, numClasses, encodeDict.Keys, sorted.Keys, j)
    ensures r.Failure? <==> !Ready(layers, units, numClasses, encodeDict.Keys, sorted.Keys, idx)
    ensures r.Failure? ==> FreqError(layers, units, numClasses, encodeDict.Keys, sorted.Keys, 0) == Some(r.error)
    ensures r.Success? ==>
      && (forall j :: 0 <= j < idx + 1 ==> Ready(layers, units, numClasses, encodeDict.Keys, sorted.Keys, j))
      && FreqLayers(layers, units, numClasses, encodeDict, sorted, idx + 1)
         == FreqLayers(layers, units, numClasses, encodeDict, sorted, idx)[layers[idx] := r.value]
  {
    var layer := layers[idx];
    FreqErrorSkip(layers, units, numClasses, encodeDict.Keys, sorted.Keys, 0, idx);
    if layer !in sorted || layer !in encodeDict {
      return Failure(MissingLayer(layer));
    }
    r := LayerFreq(layers, units, numClasses, idx, sorted[layer], encodeDict[layer]);
    if r.Success? {
      FreqLayersStep(layers, units, numClasses, encodeDict, sorted, idx);
    }
  }

  /** The loop over the run's layers in `calculation_freq_map`: every
      layer's frequencies, failing at the first layer that raises. */
  method FreqLayersLoop(layers: seq<string>, units: seq<int>, numClasses: nat,
                        encodeDict: map<string, seq<UnitEncoding>>, sorted: map<string, map<string, seq<int>>>)
    returns (r: Result<map<string, map<string, seq<real>>>, Error>)
    requires ExpandedBelow(encodeDict, sorted)
    requires forall l :: l in sorted ==> sorted[l] != map[]
    ensures var e := FreqError(layers, units, numClasses, encodeDict.Keys, sorted.Keys, 0);
      && (r.Failure? <==> e.Some?)
      && (r.Failure? ==> r.error == e.value)
      && (r.Success? ==> r.value == FreqLayers(layers, units, numClasses, encodeDict, sorted, |layers|))
  {
    var freqLayer: map<string, map<string, seq<real>>> := map[];
    var idx := 0;
    while idx < |layers|
      invariant idx <= |layers|
      invariant forall j :: 0 <= j < idx ==> Ready(layers, units, numClasses, encodeDict.Keys, sorted.Keys, j)
      invariant freqLayer == FreqLayers(layers, units, numClasses, encodeDict, sorted, idx)
    {
      var freq := LayerStep(layers, units, numClasses, encodeDict, sorted, idx);
      if freq.Failure? {
        return Failure(freq.error);
      }
      freqLayer := freqLayer[layers[idx] := freq.value];
      idx := idx + 1;
    }
    FreqErrorSkip(layers, units, numClasses, encodeDict.Keys, sorted.Keys, 0, idx);
    return Success(freqLayer);
  }

  /** One layer's classify loop and its table of ten base categories, with
      `na` the units of the layer outside the ANOVA indices `a`. */
  method SortUnits(a: seq<int>, encs: seq<UnitEncoding>) returns (unitSort: LayerSort)
    ensures unitSort == SortLayer(a, encs)
  {
    var na := SetDiff1d(Arange(|encs|), a);
    var hs, ls, hm, lm, nonEncode := ClassifyUnits(encs);
    unitSort := BaseSort(a, na, hs, ls, hm, lm, nonEncode);
  }

  class FsaEncode {
    const layers: seq<string>
    /** The configured unit count of each layer, by run position. */
    const units: seq<int>
    const numClasses: nat
    var anovaIndices: map<string, seq<int>>
    var encodeDict: map<string, seq<UnitEncoding>>
    var sortDict: map<string, LayerSort>

    /** Every stored layer has its encodings and its sort, and the sort is the
        one its ANOVA indices and encodings determine. */
    ghost predicate Valid()
      reads this
    {
      && Consistent(anovaIndices, encodeDict, sortDict)
      && (forall l :: l in sortDict ==> Complete(sortDict[l]))
      && SortsBelow(encodeDict, sortDict)
    }

    constructor (layers: seq<string>, units: seq<int>, numClasses: nat)
      ensures this.layers == layers && this.units == units && this.numClasses == numClasses
      ensures anovaIndices == map[] && encodeDict == map[] && sortDict == map[]
      ensures Valid()
    {
      this.layers := layers;
      this.units := units;
      this.numClasses := numClasses;
      anovaIndices := map[];
      encodeDict := map[];
      sortDict := map[];
    }

    /** `calculation_Encode`: for every layer of the run, in order, classify
        its units and store their encodings and the layer's ten base
        categories; stop at the first layer without responses or ANOVA
        indices, keeping the layers stored before it. */
    method CalculationEncode(anova: map<string, seq<int>>, responses: map<string, seq<UnitResponse>>)
      returns (err: Option<Error>)
      modifies this
      ensures Valid()
      ensures anovaIndices == anova
      ensures var n := FirstMissing(layers, anova, responses, 0);
        && err == (if n < |layers| then Some(MissingLayer(layers[n])) else None)
        && (forall l :: l in encodeDict <==> l in layers[..n])
        && EncodedFrom(encodeDict, responses)
    {
      anovaIndices := anova;
      encodeDict := map[];
      sortDict := map[];
      var i := 0;
      while i < |layers|
        invariant 0 <= i <= |layers|
        invariant anovaIndices == anova
        invariant FirstMissing(layers, anova, responses, 0) == FirstMissing(layers, anova, responses, i)
        invariant forall l :: l in encodeDict <==> l in layers[..i]
        invariant EncodedFrom(encodeDict, responses)
        invariant Valid()
      {
        var layer := layers[i];
        if layer !in responses || layer !in anova {
          return Some(MissingLayer(layer));
        }
        var encs := EncodeLayer(responses[layer]);
        assert AllWellFormed(encs);
        StoreLayer(anova, encodeDict, sortDict, layer, encs);
        EncodedStore(encodeDict, responses, layer);
        encodeDict := encodeDict[layer := encs];
        var unitSort := SortUnits(anova[layer], encs);
        sortDict := sortDict[layer := unitSort];
        ConsistentSorts(anova, encodeDict, sortDict);
        forall l
          ensures l in layers[..i + 1] <==> l in layers[..i] || l == layer
        {
          PrefixExtend(layers, i, l);
        }
        i := i + 1;
      }
      assert FirstMissing(layers, anova, responses, 0) == |layers|;
      return None;
    }

    /** `calculation_freq_map`: sort the working set, compute every layer's
        frequencies, and stack them per name. */
    method CalculationFreqMap(used: Option<seq<string>>) returns (r: Result<map<string, seq<seq<real>>>, Error>)
      requires Valid()
      ensures r == FreqMap(layers, units, numClasses, encodeDict, sortDict, used)
    {
      var names := WorkingSet(used);
      var s := SortDict(sortDict, names);
      if s.Failure? {
        return Failure(s.error);
      }
      var sorted := s.value;
      SortDictBelow(encodeDict, sortDict, names);
      assert BasicNames[0] in names;
      var fl := FreqLayersLoop(layers, units, numClasses, encodeDict, sorted);
      if fl.Failure? {
        return Failure(fl.error);
      }
      if layers == [] {
        return Failure(NoLayers);
      }
      FreqLayersShape(layers, units, numClasses, encodeDict, sorted, names);
      r := Success(Stack(layers, numClasses, fl.value, names));
    }
  }
}
