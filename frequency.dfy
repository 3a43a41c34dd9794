/** The frequency map (`calculation_freq_map`): for every working unit type,
    an identities-by-layers matrix whose entry is how often the identity turns
    up among the category's units, relative to the layer's unit count. */
module Frequency {
  import opened Wrappers
  import opened NdArray
  import opened Encoding
  import opened Taxonomy
  import opened Sorting

  /** Which of a unit's arrays a category pools: `encode`, `weak_encode`, or both. */
  datatype PoolKind = Strong | Weak | Both

  /** `_encode_type_check`: the strong pool for the four one-or-many strong
      base names, the weak pool for the four weak ones, both arrays for any
      other name. */
  function EncodeTypeCheck(k: string): PoolKind {
    if k in ["a_hs", "a_hm", "na_hs", "na_hm"] then Strong
    else if k in ["a_ls", "a_lm", "na_ls", "na_lm"] then Weak
    else Both
  }

  /** A base category pools the array its class is defined by. */
  lemma EncodeTypeOfBase(b: BaseType)
    ensures EncodeTypeCheck(BaseName(b)) ==
      if b.cls == HS || b.cls == HM then Strong
      else if b.cls == LS || b.cls == LM then Weak
      else Both
  {
  }

  /** Every composite, `hs` and `encode` included, pools both arrays. */
  lemma EncodeTypeOfComposite(t: UnitType)
    requires !t.Basic?
    ensures EncodeTypeCheck(Name(t)) == Both
  {
  }

  /** The identities one unit contributes to a pool. */
  function UnitPool(e: UnitEncoding, kind: PoolKind): seq<int> {
    match kind
    case Strong => e.encode
    case Weak => e.weakEncode
    case Both => e.encode + e.weakEncode
  }

  /** A well-formed unit contributes each identity at most once. */
  lemma UnitPoolCount(e: UnitEncoding, kind: PoolKind, x: int)
    requires WellFormed(e)
    ensures multiset(UnitPool(e, kind))[x] == if x in UnitPool(e, kind) then 1 else 0
  {
    StrictlyIncreasingNoDup(e.encode);
    StrictlyIncreasingNoDup(e.weakEncode);
    NoDupCount(e.encode, x);
    NoDupCount(e.weakEncode, x);
    if kind == Both {
      assert multiset(e.encode + e.weakEncode) == multiset(e.encode) + multiset(e.weakEncode);
      if x in e.encode {
        assert x !in e.weakEncode;
      }
    }
  }

  predicate IndicesBelow(us: seq<int>, n: int) {
    forall i :: 0 <= i < |us| ==> 0 <= us[i] < n
  }

  function Pools(encs: seq<UnitEncoding>, us: seq<int>, kind: PoolKind): (ps: seq<seq<int>>)
    requires IndicesBelow(us, |encs|)
    ensures |ps| == |us|
    ensures forall i :: 0 <= i < |us| ==> ps[i] == UnitPool(encs[us[i]], kind)
  {
    seq(|us|, i requires 0 <= i < |us| => UnitPool(encs[us[i]], kind))
  }

  /** `id_pool`: the pooled identities of every unit of a category, unit after
      unit; an empty category pools nothing. */
  function IdPool(encs: seq<UnitEncoding>, us: seq<int>, kind: PoolKind): seq<int>
    requires IndicesBelow(us, |encs|)
  {
    if |us| > 0 then Concat(Pools(encs, us, kind)) else []
  }

  /** How many of the units `us` have identity `x` in the pooled array. */
  function UnitsHolding(encs: seq<UnitEncoding>, us: seq<int>, kind: PoolKind, x: int): (n: nat)
    requires IndicesBelow(us, |encs|)
    ensures n <= |us|
    ensures us == [] ==> n == 0
    decreases |us|
  {
    if us == [] then 0
    else (if x in UnitPool(encs[us[0]], kind) then 1 else 0) + UnitsHolding(encs, us[1..], kind, x)
  }

  /** The `Counter` of a pool counts, for each identity, the units that hold it. */
  lemma {:induction false} PoolCount(encs: seq<UnitEncoding>, us: seq<int>, kind: PoolKind, x: int)
    requires IndicesBelow(us, |encs|)
    requires forall u :: 0 <= u < |encs| ==> WellFormed(encs[u])
    ensures multiset(IdPool(encs, us, kind))[x] == UnitsHolding(encs, us, kind, x)
    decreases |us|
  {
    if us != [] {
      var ps := Pools(encs, us, kind);
      assert ps[1..] == Pools(encs, us[1..], kind);
      assert IdPool(encs, us[1..], kind) == Concat(ps[1..]);
      PoolCount(encs, us[1..], kind, x);
      UnitPoolCount(encs[us[0]], kind, x);
      assert IdPool(encs, us, kind) == ps[0] + Concat(ps[1..]);
      assert multiset(ps[0] + Concat(ps[1..])) == multiset(ps[0]) + multiset(Concat(ps[1..]));
    }
  }

  /** `count / total`. */
  function Ratio(count: nat, total: int): (q: real)
    requires total != 0
    ensures q * (total as real) == count as real
    ensures q == 0.0 <==> count == 0
  {
    (count as real) / (total as real)
  }

  /** `freq[k]`: every identity's count in the pool over the layer's unit count. */
  function FreqVector(pool: seq<int>, numClasses: nat, total: int): (v: seq<real>)
    requires numClasses == 0 || total != 0
    ensures |v| == numClasses
  {
    seq(numClasses, i requires 0 <= i < numClasses => Ratio(multiset(pool)[i], total))
  }

  /** Every category of a sorted layer indexes units of the layer. */
  ghost predicate SortedBelow(sorted: map<string, seq<int>>, n: int) {
    forall k :: k in sorted ==> IndicesBelow(sorted[k], n)
  }

  /** One layer's `freq`: every sorted name to its frequency vector. */
  function FreqLayer(encs: seq<UnitEncoding>, sorted: map<string, seq<int>>, numClasses: nat, total: int): (f: map<string, seq<real>>)
    requires numClasses == 0 || total != 0
    requires SortedBelow(sorted, |encs|)
    ensures f.Keys == sorted.Keys
    ensures forall k :: k in f ==> |f[k]| == numClasses
  {
    map k | k in sorted :: FreqVector(IdPool(encs, sorted[k], EncodeTypeCheck(k)), numClasses, total)
  }

  /** A map holding every sorted name's frequency vector is the layer's frequencies. */
  lemma FreqLayerFrom(encs: seq<UnitEncoding>, sorted: map<string, seq<int>>, numClasses: nat, total: int,
                      f: map<string, seq<real>>)
    requires numClasses == 0 || total != 0
    requires SortedBelow(sorted, |encs|)
    requires f.Keys == sorted.Keys
    requires forall k :: k in f ==> f[k] == FreqVector(IdPool(encs, sorted[k], EncodeTypeCheck(k)), numClasses, total)
    ensures f == FreqLayer(encs, sorted, numClasses, total)
  {
  }

  /** The configured unit count at a position, or 0 past the end (read only
      when no identity is counted, so that no division happens). */
  function Total(units: seq<int>, j: nat): int {
    if j < |units| then units[j] else 0
  }

  /** The layer at run position `i` has its sort (`stored`) and encode
      (`encoded`) entries and, when any identity is counted, a configured,
      non-zero unit count. */
  predicate Ready(layers: seq<string>, units: seq<int>, numClasses: nat, encoded: set<string>, stored: set<string>, i: int)
    requires 0 <= i < |layers|
  {
    layers[i] in stored && layers[i] in encoded && (numClasses > 0 ==> i < |units| && units[i] != 0)
  }

  /** The first layer position at or after `j` whose frequencies raise: a
      layer without its sort or encode entry, or, when any identity is
      counted, one without a configured, non-zero unit count. */
  function FreqError(layers: seq<string>, units: seq<int>, numClasses: nat,
                     encoded: set<string>, stored: set<string>, j: nat): (r: Option<Error>)
    requires j <= |layers|
    ensures r.None? <==> forall i :: j <= i < |layers| ==> Ready(layers, units, numClasses, encoded, stored, i)
    decreases |layers| - j
  {
    if j == |layers| then None
    else if layers[j] !in stored || layers[j] !in encoded then
      assert !Ready(layers, units, numClasses, encoded, stored, j);
      Some(MissingLayer(layers[j]))
    else if numClasses > 0 && Divisor(layers, units, j).Failure? then
      assert !Ready(layers, units, numClasses, encoded, stored, j);
      Some(Divisor(layers, units, j).error)
    else
      assert Ready(layers, units, numClasses, encoded, stored, j);
      FreqError(layers, units, numClasses, encoded, stored, j + 1)
  }

  /** The last position before `n` that holds the same layer as position `j`. */
  function LastBefore(layers: seq<string>, n: nat, j: nat): (last: nat)
    requires j < n <= |layers|
    ensures j <= last < n && layers[last] == layers[j]
    ensures forall i :: last < i < n ==> layers[i] != layers[j]
    decreases n
  {
    if layers[n - 1] == layers[j] then n - 1 else LastBefore(layers, n - 1, j)
  }

  /** In a run that lists no layer twice, a layer's last position is its position. */
  lemma LastBeforeDistinct(layers: seq<string>, j: nat)
    requires NoDup(layers) && j < |layers|
    ensures LastBefore(layers, |layers|, j) == j
  {
  }

  /** The expanded categories of layers that are both sorted and encoded index units of the layer. */
  ghost predicate ExpandedBelow(encodeDict: map<string, seq<UnitEncoding>>, sorted: map<string, map<string, seq<int>>>) {
    forall l :: l in sorted && l in encodeDict ==> SortedBelow(sorted[l], |encodeDict[l]|)
  }

  /** `freq_layer` after the first `n` layers of the run: each layer in turn
      writes its frequencies, over the unit count at its position, under its
      name, replacing what an earlier position of the same name wrote. */
  function FreqLayers(layers: seq<string>, units: seq<int>, numClasses: nat,
                      encodeDict: map<string, seq<UnitEncoding>>, sorted: map<string, map<string, seq<int>>>,
                      n: nat): (fl: map<string, map<string, seq<real>>>)
    requires n <= |layers|
    requires forall i :: 0 <= i < n ==> Ready(layers, units, numClasses, encodeDict.Keys, sorted.Keys, i)
    requires ExpandedBelow(encodeDict, sorted)
    ensures forall i :: 0 <= i < n ==> layers[i] in fl
    decreases n
  {
    if n == 0 then map[]
    else
      var l := layers[n - 1];
      assert Ready(layers, units, numClasses, encodeDict.Keys, sorted.Keys, n - 1);
      var front := FreqLayers(layers, units, numClasses, encodeDict, sorted, n - 1);
      front[l := FreqLayer(encodeDict[l], sorted[l], numClasses, Total(units, n - 1))]
  }

  /** `freq_layer` holds exactly the layers seen so far. */
  lemma {:induction false} FreqLayersKeys(layers: seq<string>, units: seq<int>, numClasses: nat,
                                          encodeDict: map<string, seq<UnitEncoding>>, sorted: map<string, map<string, seq<int>>>,
                                          n: nat)
    requires n <= |layers|
    requires forall i :: 0 <= i < n ==> Ready(layers, units, numClasses, encodeDict.Keys, sorted.Keys, i)
    requires ExpandedBelow(encodeDict, sorted)
    ensures FreqLayers(layers, units, numClasses, encodeDict, sorted, n).Keys == set i | 0 <= i < n :: layers[i]
    decreases n
  {
    if n > 0 {
      FreqLayersKeys(layers, units, numClasses, encodeDict, sorted, n - 1);
      assert (set i | 0 <= i < n :: layers[i]) == (set i | 0 <= i < n - 1 :: layers[i]) + {layers[n - 1]};
    }
  }

  /** One more layer writes its frequencies under its name, adds that name to
      `freq_layer`'s keys, and leaves every other layer's entry as it was. */
  lemma FreqLayersStep(layers: seq<string>, units: seq<int>, numClasses: nat,
                       encodeDict: map<string, seq<UnitEncoding>>, sorted: map<string, map<string, seq<int>>>,
                       n: nat)
    requires n < |layers|
    requires forall i :: 0 <= i < n ==> Ready(layers, units, numClasses, encodeDict.Keys, sorted.Keys, i)
    requires Ready(layers, units, numClasses, encodeDict.Keys, sorted.Keys, n)
    requires ExpandedBelow(encodeDict, sorted)
    ensures forall i :: 0 <= i < n + 1 ==> Ready(layers, units, numClasses, encodeDict.Keys, sorted.Keys, i)
    ensures FreqLayers(layers, units, numClasses, encodeDict, sorted, n + 1)
      == FreqLayers(layers, units, numClasses, encodeDict, sorted, n)[layers[n] :=
           FreqLayer(encodeDict[layers[n]], sorted[layers[n]], numClasses, Total(units, n))]
    ensures FreqLayers(layers, units, numClasses, encodeDict, sorted, n + 1).Keys
      == FreqLayers(layers, units, numClasses, encodeDict, sorted, n).Keys + {layers[n]}
    ensures forall l :: l in FreqLayers(layers, units, numClasses, encodeDict, sorted, n) && l != layers[n] ==>
      FreqLayers(layers, units, numClasses, encodeDict, sorted, n + 1)[l]
        == FreqLayers(layers, units, numClasses, encodeDict, sorted, n)[l]
  {
  }

  /** After the first `n` layers, each of them holds the frequencies computed
      at its last position among them. */
  lemma {:induction false} FreqLayersLast(layers: seq<string>, units: seq<int>, numClasses: nat,
                                          encodeDict: map<string, seq<UnitEncoding>>, sorted: map<string, map<string, seq<int>>>,
                                          n: nat, j: nat)
    requires n <= |layers|
    requires forall i :: 0 <= i < n ==> Ready(layers, units, numClasses, encodeDict.Keys, sorted.Keys, i)
    requires ExpandedBelow(encodeDict, sorted)
    requires j < n
    ensures var last := LastBefore(layers, n, j);
      && Ready(layers, units, numClasses, encodeDict.Keys, sorted.Keys, last)
      && layers[j] in sorted && layers[j] in encodeDict
      && FreqLayers(layers, units, numClasses, encodeDict, sorted, n)[layers[j]]
         == FreqLayer(encodeDict[layers[j]], sorted[layers[j]], numClasses, Total(units, last))
    decreases n
  {
    assert Ready(layers, units, numClasses, encodeDict.Keys, sorted.Keys, j);
    if layers[n - 1] != layers[j] {
      FreqLayersLast(layers, units, numClasses, encodeDict, sorted, n - 1, j);
    }
  }

  /** `freq_dict`: per name, the stack of its layer vectors transposed, so that
      row `i`, column `j` is identity `i` in the layer at position `j`. */
  function Stack(layers: seq<string>, numClasses: nat, fl: map<string, map<string, seq<real>>>, names: set<string>): (m: map<string, seq<seq<real>>>)
    requires forall j, k :: 0 <= j < |layers| && k in names ==>
      layers[j] in fl && k in fl[layers[j]] && |fl[layers[j]][k]| == numClasses
    ensures m.Keys == names
    ensures forall k :: k in m ==> |m[k]| == numClasses
    ensures forall k, i :: k in m && 0 <= i < numClasses ==> |m[k][i]| == |layers|
    ensures forall k, i, j :: k in m && 0 <= i < numClasses && 0 <= j < |layers| ==> m[k][i][j] == fl[layers[j]][k][i]
  {
    map k | k in names ::
      seq(numClasses, i requires 0 <= i < numClasses =>
        seq(|layers|, j requires 0 <= j < |layers| => fl[layers[j]][k][i]))
  }

  /** The unit types the map is computed for: those asked for together with the
      ten base types, or the whole registry when none are asked for. */
  function WorkingSet(used: Option<seq<string>>): (w: set<string>)
    ensures forall b :: b in BasicNames ==> b in w
    ensures used.Some? ==> forall k :: k in w <==> k in used.value || k in BasicNames
    ensures used.None? ==> forall k :: k in w <==> Known(k)
  {
    match used
    case Some(names) => (set k | k in names) + (set b | b in BasicNames)
    case None =>
      RegistryKeys();
      BasicNamesKnown();
      Registry().Keys
  }

  lemma RegistryKeys()
    ensures forall k :: k in Registry() <==> Known(k)
  {
    forall k
      ensures k in Registry() <==> Known(k)
    {
      RegistryKnown(k);
    }
  }

  lemma BasicNamesKnown()
    ensures forall b :: b in BasicNames ==> Known(b)
  {
    forall b | b in BasicNames
      ensures Known(b)
    {
      var i :| 0 <= i < |BasicNames| && BasicNames[i] == b;
      assert BaseName(BasicTypes[i]) == b;
      BasicIsItself(BasicTypes[i]);
    }
  }

  /** Every stored layer sort indexes units of the layer's encodings. */
  ghost predicate SortsBelow(encodeDict: map<string, seq<UnitEncoding>>, sortDict: map<string, LayerSort>) {
    forall l, b, i :: l in sortDict && l in encodeDict && b in sortDict[l] && 0 <= i < |sortDict[l][b]| ==>
      0 <= sortDict[l][b][i] < |encodeDict[l]|
  }

  /** A composite of base arrays that index `0..n-1` indexes `0..n-1` too. */
  lemma ExpandBelow(sd: LayerSort, t: UnitType, n: int)
    requires Complete(sd)
    requires forall b, i :: 0 <= i < |sd[b]| ==> 0 <= sd[b][i] < n
    ensures IndicesBelow(Expand(sd, t), n)
  {
    var e := Expand(sd, t);
    var ps := Parts(sd, t);
    forall i | 0 <= i < |e|
      ensures 0 <= e[i] < n
    {
      ConcatMembership(ps, e[i]);
      var j :| 0 <= j < |ps| && e[i] in ps[j];
      var m :| 0 <= m < |ps[j]| && ps[j][m] == e[i];
      assert sd[Components(t)[j]][m] == e[i];
    }
  }

  /** Sorting stored layers that index their encodings gives expanded
      categories that index them too. */
  lemma SortDictBelow(encodeDict: map<string, seq<UnitEncoding>>, sortDict: map<string, LayerSort>, names: set<string>)
    requires forall l :: l in sortDict ==> Complete(sortDict[l])
    requires SortsBelow(encodeDict, sortDict)
    requires SortDict(sortDict, names).Success?
    ensures ExpandedBelow(encodeDict, SortDict(sortDict, names).value)
  {
    var sorted := SortDict(sortDict, names).value;
    forall l, k | l in sorted && l in encodeDict && k in sorted[l]
      ensures IndicesBelow(sorted[l][k], |encodeDict[l]|)
    {
      ExpandBelow(sortDict[l], Resolve(k), |encodeDict[l]|);
    }
  }

  /** `calculation_freq_map`: sort the working set, then compute and stack
      the per-layer frequencies. */
  function FreqMap(layers: seq<string>, units: seq<int>, numClasses: nat,
                   encodeDict: map<string, seq<UnitEncoding>>, sortDict: map<string, LayerSort>,
                   used: Option<seq<string>>): (r: Result<map<string, seq<seq<real>>>, Error>)
    requires forall l :: l in sortDict ==> Complete(sortDict[l])
    requires SortsBelow(encodeDict, sortDict)
    ensures r.Success? ==> r.value.Keys == WorkingSet(used)
    ensures r.Success? ==> forall k :: k in r.value ==> |r.value[k]| == numClasses
    ensures r.Success? ==> forall k, i :: k in r.value && 0 <= i < numClasses ==> |r.value[k][i]| == |layers|
  {
    var names := WorkingSet(used);
    var sorted :- SortDict(sortDict, names);
    SortDictBelow(encodeDict, sortDict, names);
    FreqStack(layers, units, numClasses, encodeDict, sorted, names)
  }

  /** The layer loop and the final stacking of `calculation_freq_map`, over the
      sorted working set `names`: fail on the first layer that raises; a run
      with no layers fails after the loop, which leaves nothing to stack. */
  function FreqStack(layers: seq<string>, units: seq<int>, numClasses: nat,
                     encodeDict: map<string, seq<UnitEncoding>>, sorted: map<string, map<string, seq<int>>>,
                     names: set<string>): (r: Result<map<string, seq<seq<real>>>, Error>)
    requires ExpandedBelow(encodeDict, sorted)
    requires forall l :: l in sorted ==> sorted[l].Keys == names
    ensures r.Success? ==> r.value.Keys == names
    ensures r.Success? ==> forall k :: k in r.value ==> |r.value[k]| == numClasses
    ensures r.Success? ==> forall k, i :: k in r.value && 0 <= i < numClasses ==> |r.value[k][i]| == |layers|
  {
    var e := FreqError(layers, units, numClasses, encodeDict.Keys, sorted.Keys, 0);
    if e.Some? then Failure(e.value)
    else if layers == [] then Failure(NoLayers)
    else
      var fl := FreqLayers(layers, units, numClasses, encodeDict, sorted, |layers|);
      FreqLayersShape(layers, units, numClasses, encodeDict, sorted, names);
      Success(Stack(layers, numClasses, fl, names))
  }

  /** Every layer's frequencies hold a vector of `numClasses` entries per name. */
  lemma FreqLayersShape(layers: seq<string>, units: seq<int>, numClasses: nat,
                        encodeDict: map<string, seq<UnitEncoding>>, sorted: map<string, map<string, seq<int>>>,
                        names: set<string>)
    requires forall i :: 0 <= i < |layers| ==> Ready(layers, units, numClasses, encodeDict.Keys, sorted.Keys, i)
    requires ExpandedBelow(encodeDict, sorted)
    requires forall l :: l in sorted ==> sorted[l].Keys == names
    ensures var fl := FreqLayers(layers, units, numClasses, encodeDict, sorted, |layers|);
      forall j, k :: 0 <= j < |layers| && k in names ==>
        layers[j] in fl && k in fl[layers[j]] && |fl[layers[j]][k]| == numClasses
  {
    var fl := FreqLayers(layers, units, numClasses, encodeDict, sorted, |layers|);
    forall j, k | 0 <= j < |layers| && k in names
      ensures layers[j] in fl && k in fl[layers[j]] && |fl[layers[j]][k]| == numClasses
    {
      FreqLayersLast(layers, units, numClasses, encodeDict, sorted, |layers|, j);
    }
  }

  /** The working set holds only registered names exactly when every asked-for name is registered. */
  lemma WorkingSetKnown(used: Option<seq<string>>)
    ensures (forall k :: k in WorkingSet(used) ==> Known(k)) <==>
      (used.Some? ==> forall k :: k in used.value ==> Known(k))
  {
    BasicNamesKnown();
  }

  /** The map is computed exactly when the run has layers, every asked-for name
      is registered, and every layer has its sort and encode entries and, when
      any identity is counted, a configured, non-zero unit count. */
  lemma FreqMapSucceeds(layers: seq<string>, units: seq<int>, numClasses: nat,
                        encodeDict: map<string, seq<UnitEncoding>>, sortDict: map<string, LayerSort>,
                        used: Option<seq<string>>)
    requires forall l :: l in sortDict ==> Complete(sortDict[l])
    requires SortsBelow(encodeDict, sortDict)
    ensures FreqMap(layers, units, numClasses, encodeDict, sortDict, used).Success? <==>
      && layers != []
      && (used.Some? ==> forall k :: k in used.value ==> Known(k))
      && forall i :: 0 <= i < |layers| ==> Ready(layers, units, numClasses, encodeDict.Keys, sortDict.Keys, i)
  {
    var names := WorkingSet(used);
    WorkingSetKnown(used);
    var s := SortDict(sortDict, names);
    if s.Success? {
      var e := FreqError(layers, units, numClasses, encodeDict.Keys, s.value.Keys, 0);
      assert s.value.Keys == sortDict.Keys;
      if sortDict == map[] && layers != [] {
        assert !Ready(layers, units, numClasses, encodeDict.Keys, sortDict.Keys, 0);
      }
    } else {
      var k :| k in names && !Known(k);
    }
  }

  /** Of the working set, an unregistered name that was asked for fails the map
      with every such name, once any layer is sorted. */
  lemma FreqMapUnknown(layers: seq<string>, units: seq<int>, numClasses: nat,
                       encodeDict: map<string, seq<UnitEncoding>>, sortDict: map<string, LayerSort>,
                       used: seq<string>, k: string)
    requires forall l :: l in sortDict ==> Complete(sortDict[l])
    requires SortsBelow(encodeDict, sortDict)
    requires k in used && !Known(k) && sortDict != map[]
    ensures FreqMap(layers, units, numClasses, encodeDict, sortDict, Some(used))
      == Failure(UnknownUnitTypes(set k | k in used && !Known(k)))
  {
    var names := WorkingSet(Some(used));
    BasicNamesKnown();
    assert k in names;
    assert (set k | k in names && !Known(k)) == (set k | k in used && !Known(k));
  }

  /** A run with no layers has no frequencies to stack. */
  lemma FreqMapNoLayers(units: seq<int>, numClasses: nat,
                        encodeDict: map<string, seq<UnitEncoding>>, sortDict: map<string, LayerSort>,
                        used: Option<seq<string>>)
    requires forall l :: l in sortDict ==> Complete(sortDict[l])
    requires SortsBelow(encodeDict, sortDict)
    requires used.Some? ==> forall k :: k in used.value ==> Known(k)
    ensures FreqMap([], units, numClasses, encodeDict, sortDict, used) == Failure(NoLayers)
  {
    WorkingSetKnown(used);
  }

  /** Entry `i` of a name's vector in one layer's frequencies. */
  lemma FreqLayerAt(encs: seq<UnitEncoding>, sorted: map<string, seq<int>>, numClasses: nat, total: int,
                    k: string, i: nat)
    requires numClasses == 0 || total != 0
    requires SortedBelow(sorted, |encs|)
    requires k in sorted && i < numClasses
    ensures FreqLayer(encs, sorted, numClasses, total)[k][i]
      == Ratio(multiset(IdPool(encs, sorted[k], EncodeTypeCheck(k)))[i], total)
  {
  }

  /** An entry of the stacked matrix is the name's entry in that layer's
      frequencies, computed with the unit count at the layer's last position. */
  lemma FreqStackAt(layers: seq<string>, units: seq<int>, numClasses: nat,
                    encodeDict: map<string, seq<UnitEncoding>>, sorted: map<string, map<string, seq<int>>>,
                    names: set<string>, k: string, i: nat, j: nat)
    requires ExpandedBelow(encodeDict, sorted)
    requires forall l :: l in sorted ==> sorted[l].Keys == names
    requires FreqStack(layers, units, numClasses, encodeDict, sorted, names).Success?
    requires k in names && i < numClasses && j < |layers|
    ensures layers[j] in sorted && layers[j] in encodeDict
    ensures var last := LastBefore(layers, |layers|, j);
      && last < |units| && units[last] != 0
      && SortedBelow(sorted[layers[j]], |encodeDict[layers[j]]|)
      && FreqStack(layers, units, numClasses, encodeDict, sorted, names).value[k][i][j]
         == FreqLayer(encodeDict[layers[j]], sorted[layers[j]], numClasses, units[last])[k][i]
  {
    FreqLayersShape(layers, units, numClasses, encodeDict, sorted, names);
    FreqLayersLast(layers, units, numClasses, encodeDict, sorted, |layers|, j);
  }

  /** Entry `i` of row `j` (identity `i` in the layer at position `j`) of a
      name's matrix: the number of the name's units in that layer whose pooled
      arrays hold identity `i`, over the layer's unit count; that number is a
      whole count of at most the name's units. */
  lemma FreqMapEntry(layers: seq<string>, units: seq<int>, numClasses: nat,
                     encodeDict: map<string, seq<UnitEncoding>>, sortDict: map<string, LayerSort>,
                     used: Option<seq<string>>, k: string, i: nat, j: nat)
    requires forall l :: l in sortDict ==> Complete(sortDict[l])
    requires SortsBelow(encodeDict, sortDict)
    requires forall l, u :: l in encodeDict && 0 <= u < |encodeDict[l]| ==> WellFormed(encodeDict[l][u])
    requires FreqMap(layers, units, numClasses, encodeDict, sortDict, used).Success?
    requires k in WorkingSet(used) && i < numClasses && j < |layers|
    ensures Known(k) && layers[j] in sortDict && layers[j] in encodeDict
    ensures var l := layers[j];
      var last := LastBefore(layers, |layers|, j);
      var us := Expand(sortDict[l], Resolve(k));
      && last < |units| && units[last] != 0
      && IndicesBelow(us, |encodeDict[l]|)
      && var n := UnitsHolding(encodeDict[l], us, EncodeTypeCheck(k), i);
      && n <= |us|
      && FreqMap(layers, units, numClasses, encodeDict, sortDict, used).value[k][i][j] == Ratio(n, units[last])
  {
    var names := WorkingSet(used);
    var sorted := SortDict(sortDict, names).value;
    SortDictBelow(encodeDict, sortDict, names);
    var m := FreqStack(layers, units, numClasses, encodeDict, sorted, names).value;
    assert FreqMap(layers, units, numClasses, encodeDict, sortDict, used).value == m;
    var l := layers[j];
    FreqStackAt(layers, units, numClasses, encodeDict, sorted, names, k, i, j);
    var last := LastBefore(layers, |layers|, j);
    var us := Expand(sortDict[l], Resolve(k));
    assert sorted[l][k] == us;
    FreqLayerAt(encodeDict[l], sorted[l], numClasses, units[last], k, i);
    PoolCount(encodeDict[l], us, EncodeTypeCheck(k), i);
    var n := UnitsHolding(encodeDict[l], us, EncodeTypeCheck(k), i);
    assert multiset(IdPool(encodeDict[l], sorted[l][k], EncodeTypeCheck(k)))[i] == n;
    assert m[k][i][j] == Ratio(n, units[last]);
  }

  /** A name with no units in a layer has zero frequency there for every identity. */
  lemma FreqMapEmptyCategory(layers: seq<string>, units: seq<int>, numClasses: nat,
                             encodeDict: map<string, seq<UnitEncoding>>, sortDict: map<string, LayerSort>,
                             used: Option<seq<string>>, k: string, i: nat, j: nat)
    requires forall l :: l in sortDict ==> Complete(sortDict[l])
    requires SortsBelow(encodeDict, sortDict)
    requires forall l, u :: l in encodeDict && 0 <= u < |encodeDict[l]| ==> WellFormed(encodeDict[l][u])
    requires FreqMap(layers, units, numClasses, encodeDict, sortDict, used).Success?
    requires k in WorkingSet(used) && i < numClasses && j < |layers|
    requires Known(k) && layers[j] in sortDict && Expand(sortDict[layers[j]], Resolve(k)) == []
    ensures FreqMap(layers, units, numClasses, encodeDict, sortDict, used).value[k][i][j] == 0.0
  {
    FreqMapEntry(layers, units, numClasses, encodeDict, sortDict, used, k, i, j);
  }

  /** Positions before `i` whose layers are ready leave the first failure where it was. */
  lemma {:induction false} FreqErrorSkip(layers: seq<string>, units: seq<int>, numClasses: nat,
                                          encoded: set<string>, stored: set<string>, j: nat, i: nat)
    requires j <= i <= |layers|
    requires forall p :: j <= p < i ==> Ready(layers, units, numClasses, encoded, stored, p)
    ensures FreqError(layers, units, numClasses, encoded, stored, j) == FreqError(layers, units, numClasses, encoded, stored, i)
    decreases i - j
  {
    if j < i {
      assert Ready(layers, units, numClasses, encoded, stored, j);
      FreqErrorSkip(layers, units, numClasses, encoded, stored, j + 1, i);
    }
  }

  lemma PrefixExtend<T>(s: seq<T>, i: nat, x: T)
    requires i < |s|
    ensures x in s[..i + 1] <==> x in s[..i] || x == s[i]
  {
    assert s[..i + 1] == s[..i] + [s[i]];
  }
}
