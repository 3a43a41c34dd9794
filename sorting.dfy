/** The layer sorter: the five-way encoding class of each unit, the ten base
    types of a layer (encoding class crossed with ANOVA significance), and
    the composite views derived from them through the registry. */
module Sorting {
  import opened Wrappers
  import opened NdArray
  import opened Encoding
  import opened Taxonomy

  /** The if-chain that files a unit under `hs`, `ls`, `hm`, `lm` or
      `non_encode`; `None` stands for falling through every branch. */
  function Classify(e: UnitEncoding): (c: Option<EncodeClass>)
    ensures c.Some?
    ensures c == Some(HS) <==> |e.encode| == 1
    ensures c == Some(HM) <==> |e.encode| > 1
    ensures c == Some(LS) <==> |e.encode| == 0 && |e.weakEncode| == 1
    ensures c == Some(LM) <==> |e.encode| == 0 && |e.weakEncode| > 1
    ensures c == Some(NE) <==> |e.encode| == 0 && |e.weakEncode| == 0
  {
    if |e.encode| == 1 then Some(HS)
    else if |e.encode| == 0 && |e.weakEncode| == 1 then Some(LS)
    else if |e.encode| > 1 then Some(HM)
    else if |e.encode| == 0 && |e.weakEncode| > 1 then Some(LM)
    else if |e.encode| == 0 && |e.weakEncode| == 0 then Some(NE)
    else None
  }

  /** The units of class `c`, in increasing unit order. */
  function ClassIndices(encs: seq<UnitEncoding>, c: EncodeClass): (r: seq<int>)
    ensures StrictlyIncreasing(r)
    ensures forall u :: u in r <==> 0 <= u < |encs| && Classify(encs[u]) == Some(c)
    decreases |encs|
  {
    if encs == [] then []
    else
      var n := |encs| - 1;
      var front := ClassIndices(encs[..n], c);
      var last := if Classify(encs[n]) == Some(c) then [n] else [];
      assert forall u :: u in front ==> u < n;
      IncreasingAppend(front, last);
      front + last
  }

  /** The loop that appends every unit index to the list of its class. */
  method ClassifyUnits(encs: seq<UnitEncoding>) returns (hs: seq<int>, ls: seq<int>, hm: seq<int>, lm: seq<int>, nonEncode: seq<int>)
    ensures hs == ClassIndices(encs, HS) && ls == ClassIndices(encs, LS)
    ensures hm == ClassIndices(encs, HM) && lm == ClassIndices(encs, LM)
    ensures nonEncode == ClassIndices(encs, NE)
  {
    hs, ls, hm, lm, nonEncode := [], [], [], [], [];
    for k := 0 to |encs|
      invariant hs == ClassIndices(encs[..k], HS) && ls == ClassIndices(encs[..k], LS)
      invariant hm == ClassIndices(encs[..k], HM) && lm == ClassIndices(encs[..k], LM)
      invariant nonEncode == ClassIndices(encs[..k], NE)
    {
      assert encs[..k + 1][..k] == encs[..k];
      var v := encs[k];
      if |v.encode| == 1 {
        hs := hs + [k];
      } else if |v.encode| == 0 && |v.weakEncode| == 1 {
        ls := ls + [k];
      } else if |v.encode| > 1 {
        hm := hm + [k];
      } else if |v.encode| == 0 && |v.weakEncode| > 1 {
        lm := lm + [k];
      } else if |v.encode| == 0 && |v.weakEncode| == 0 {
        nonEncode := nonEncode + [k];
      }
    }
    assert encs[..|encs|] == encs;
  }

  /** One layer's base types to their unit index arrays. */
  type LayerSort = map<BaseType, seq<int>>

  ghost predicate Complete(sd: LayerSort) {
    forall b: BaseType :: b in sd
  }

  /** The base type a unit belongs to, given the ANOVA index array `a`. */
  function BaseOf(a: seq<int>, encs: seq<UnitEncoding>, u: int): BaseType
    requires 0 <= u < |encs|
  {
    BaseType(if u in a then Significant else NotSignificant, Classify(encs[u]).value)
  }

  /** One base type's array: the units of its encoding class that are in
      the ANOVA indices `a` (significant) or in the rest of the unit range. */
  function Category(a: seq<int>, encs: seq<UnitEncoding>, b: BaseType): seq<int> {
    var pool := if b.sig == Significant then a else SetDiff1d(Arange(|encs|), a);
    Intersect1d(pool, ClassIndices(encs, b.cls))
  }

  /** The list the classify loop fills for class `c`. */
  function ClassList(c: EncodeClass, hs: seq<int>, ls: seq<int>, hm: seq<int>, lm: seq<int>, nonEncode: seq<int>): seq<int> {
    match c
    case HS => hs
    case LS => ls
    case HM => hm
    case LM => lm
    case NE => nonEncode
  }

  /** The ten-entry table of a layer's base categories: each base type's class
      list intersected with the ANOVA indices `a` or with the rest `na`. */
  function BaseSort(a: seq<int>, na: seq<int>, hs: seq<int>, ls: seq<int>, hm: seq<int>, lm: seq<int>, nonEncode: seq<int>): LayerSort {
    map b | b in BasicTypes ::
      Intersect1d(if b.sig == Significant then a else na, ClassList(b.cls, hs, ls, hm, lm, nonEncode))
  }

  /** The ten base types of a layer, each to its category array. */
  function SortLayer(a: seq<int>, encs: seq<UnitEncoding>): LayerSort {
    BaseSort(a, SetDiff1d(Arange(|encs|), a), ClassIndices(encs, HS), ClassIndices(encs, LS),
             ClassIndices(encs, HM), ClassIndices(encs, LM), ClassIndices(encs, NE))
  }

  lemma SortLayerAt(a: seq<int>, encs: seq<UnitEncoding>, b: BaseType)
    ensures b in SortLayer(a, encs) && SortLayer(a, encs)[b] == Category(a, encs, b)
  {
    BasicListed(b);
    ClassListOf(encs, b.cls);
  }

  lemma ClassListOf(encs: seq<UnitEncoding>, c: EncodeClass)
    ensures ClassList(c, ClassIndices(encs, HS), ClassIndices(encs, LS), ClassIndices(encs, HM),
                      ClassIndices(encs, LM), ClassIndices(encs, NE)) == ClassIndices(encs, c)
  {
  }

  /** A category array holds, in increasing order, exactly the units of its base type. */
  lemma CategoryMembers(a: seq<int>, encs: seq<UnitEncoding>, b: BaseType)
    ensures StrictlyIncreasing(Category(a, encs, b))
    ensures forall u :: u in Category(a, encs, b) <==> 0 <= u < |encs| && BaseOf(a, encs, u) == b
  {
  }

  /** What sorting a layer guarantees: every base type has an increasing
      array holding exactly the units of that base type. */
  ghost predicate Sorts(sd: LayerSort, a: seq<int>, encs: seq<UnitEncoding>) {
    && Complete(sd)
    && (forall b: BaseType :: StrictlyIncreasing(sd[b]))
    && (forall b: BaseType, i :: 0 <= i < |sd[b]| ==> 0 <= sd[b][i] < |encs| && BaseOf(a, encs, sd[b][i]) == b)
    && (forall u :: 0 <= u < |encs| ==> u in sd[BaseOf(a, encs, u)])
  }

  /** Membership in one array of a sorted layer. */
  lemma SortsMember(sd: LayerSort, a: seq<int>, encs: seq<UnitEncoding>, b: BaseType, u: int)
    requires Sorts(sd, a, encs)
    ensures u in sd[b] <==> 0 <= u < |encs| && BaseOf(a, encs, u) == b
  {
  }

  /** The ten arrays of `SortLayer` partition the layer's units by base type. */
  lemma SortLayerPartition(a: seq<int>, encs: seq<UnitEncoding>)
    ensures Sorts(SortLayer(a, encs), a, encs)
  {
    var s := SortLayer(a, encs);
    forall b: BaseType
      ensures b in s && StrictlyIncreasing(s[b])
      ensures forall i :: 0 <= i < |s[b]| ==> 0 <= s[b][i] < |encs| && BaseOf(a, encs, s[b][i]) == b
    {
      SortLayerAt(a, encs, b);
      CategoryMembers(a, encs, b);
      forall i | 0 <= i < |s[b]|
        ensures 0 <= s[b][i] < |encs| && BaseOf(a, encs, s[b][i]) == b
      {
        assert s[b][i] in Category(a, encs, b);
      }
    }
    forall u | 0 <= u < |encs|
      ensures u in s[BaseOf(a, encs, u)]
    {
      SortLayerAt(a, encs, BaseOf(a, encs, u));
      CategoryMembers(a, encs, BaseOf(a, encs, u));
    }
  }

  /** No unit is in two base types, and every unit of the layer is in the
      array of its own base type, one of the ten. */
  lemma SortLayerDisjointAndCovering(sd: LayerSort, a: seq<int>, encs: seq<UnitEncoding>)
    requires Sorts(sd, a, encs)
    ensures forall b1: BaseType, b2: BaseType, u: int :: b1 != b2 && u in sd[b1] ==> u !in sd[b2]
    ensures forall u :: 0 <= u < |encs| ==> BaseOf(a, encs, u) in BasicTypes
  {
    forall b1: BaseType, b2: BaseType, u: int | b1 != b2 && u in sd[b1]
      ensures u !in sd[b2]
    {
      SortsMember(sd, a, encs, b1, u);
      SortsMember(sd, a, encs, b2, u);
    }
    forall u | 0 <= u < |encs|
      ensures BaseOf(a, encs, u) in BasicTypes
    {
      BasicListed(BaseOf(a, encs, u));
    }
  }

  /** The base arrays an entry of the registry stands for, in the table's order. */
  function Parts(sd: LayerSort, t: UnitType): (ps: seq<seq<int>>)
    requires Complete(sd)
    ensures |ps| == |Components(t)|
    ensures forall j :: 0 <= j < |ps| ==> ps[j] == sd[Components(t)[j]]
  {
    seq(|Components(t)|, j requires 0 <= j < |Components(t)| => sd[Components(t)[j]])
  }

  /** A composite's index array: its base arrays concatenated. */
  function Expand(sd: LayerSort, t: UnitType): seq<int>
    requires Complete(sd)
  {
    Concat(Parts(sd, t))
  }

  /** The expansion is as long as its base arrays together. */
  lemma ExpandLength(sd: LayerSort, t: UnitType)
    requires Complete(sd)
    ensures |Expand(sd, t)| == SumLengths(Parts(sd, t))
  {
    ConcatLength(Parts(sd, t));
  }

  /** A unit is in a composite exactly when its base type is one of the composite's. */
  lemma ExpandMembership(sd: LayerSort, a: seq<int>, encs: seq<UnitEncoding>, t: UnitType, u: int)
    requires Sorts(sd, a, encs)
    ensures u in Expand(sd, t) <==> 0 <= u < |encs| && BaseOf(a, encs, u) in Components(t)
  {
    var ps := Parts(sd, t);
    ConcatMembership(ps, u);
    if exists j :: 0 <= j < |ps| && u in ps[j] {
      var j :| 0 <= j < |ps| && u in ps[j];
      SortsMember(sd, a, encs, Components(t)[j], u);
    }
    if 0 <= u < |encs| && BaseOf(a, encs, u) in Components(t) {
      var j :| 0 <= j < |Components(t)| && Components(t)[j] == BaseOf(a, encs, u);
      assert u in ps[j];
    }
  }

  /** A composite's index array holds no unit twice. */
  lemma ExpandNoDup(sd: LayerSort, a: seq<int>, encs: seq<UnitEncoding>, t: UnitType)
    requires Sorts(sd, a, encs)
    ensures NoDup(Expand(sd, t))
  {
    SortLayerDisjointAndCovering(sd, a, encs);
    ComponentsDistinct(t);
    var ps := Parts(sd, t);
    forall j | 0 <= j < |ps|
      ensures NoDup(ps[j])
    {
      StrictlyIncreasingNoDup(ps[j]);
    }
    forall i, j, x | 0 <= i < j < |ps| && x in ps[i]
      ensures x !in ps[j]
    {
      assert Components(t)[i] != Components(t)[j];
    }
    ConcatNoDup(ps);
  }

  /** `qualified` holds every unit of the layer exactly once. */
  lemma ExpandQualified(sd: LayerSort, a: seq<int>, encs: seq<UnitEncoding>)
    requires Sorts(sd, a, encs)
    ensures forall u :: u in Expand(sd, Qualified) <==> 0 <= u < |encs|
    ensures |Expand(sd, Qualified)| == |encs|
  {
    var q := Expand(sd, Qualified);
    forall u
      ensures u in q <==> 0 <= u < |encs|
    {
      ExpandMembership(sd, a, encs, Qualified, u);
      if 0 <= u < |encs| {
        BasicListed(BaseOf(a, encs, u));
      }
    }
    ExpandNoDup(sd, a, encs, Qualified);
    NoDupRangeLength(q, |encs|);
  }

  /** `calculation_Sort_dict`: for every stored layer and every requested
      name, the name's index array. Looking a name up fails only once a
      layer is there to look it up for. */
  function SortDict(sortDict: map<string, LayerSort>, used: set<string>): (r: Result<map<string, map<string, seq<int>>>, Error>)
    requires forall l :: l in sortDict ==> Complete(sortDict[l])
    ensures r.Failure? <==> sortDict != map[] && exists k :: k in used && !Known(k)
    ensures r.Failure? ==> r.error == UnknownUnitTypes(set k | k in used && !Known(k))
    ensures r.Success? ==> r.value.Keys == sortDict.Keys
    ensures r.Success? ==> forall l :: l in r.value ==>
      && r.value[l].Keys == used
      && forall k :: k in used ==> Known(k) && r.value[l][k] == Expand(sortDict[l], Resolve(k))
  {
    if sortDict == map[] then Success(map[])
    else if exists k :: k in used && !Known(k) then
      Failure(UnknownUnitTypes(set k | k in used && !Known(k)))
    else
      Success(map l | l in sortDict :: map k | k in used :: Expand(sortDict[l], Resolve(k)))
  }

  /** The position's configured unit count as a divisor, or the error that dividing by it raises. */
  function Divisor(layers: seq<string>, units: seq<int>, j: nat): (r: Result<int, Error>)
    requires j < |layers|
    ensures r.Success? <==> j < |units| && units[j] != 0
    ensures r.Success? ==> r.value == units[j]
  {
    if j >= |units| then Failure(MissingUnitCount(layers[j]))
    else if units[j] == 0 then Failure(ZeroUnitCount(layers[j]))
    else Success(units[j])
  }

  /** The layer at run position `i` is sorted and has a configured, non-zero unit count. */
  predicate PctReady(layers: seq<string>, units: seq<int>, sorted: map<string, map<string, seq<int>>>, i: int)
    requires 0 <= i < |layers|
  {
    layers[i] in sorted && i < |units| && units[i] != 0
  }

  /** The first failing layer position at or after `j` for the percentages. */
  function PctError(layers: seq<string>, units: seq<int>, sorted: map<string, map<string, seq<int>>>, j: nat): (r: Option<Error>)
    requires j <= |layers|
    ensures r.None? <==> forall i :: j <= i < |layers| ==> PctReady(layers, units, sorted, i)
    decreases |layers| - j
  {
    if j == |layers| then None
    else if layers[j] !in sorted then
      assert !PctReady(layers, units, sorted, j);
      Some(MissingLayer(layers[j]))
    else if Divisor(layers, units, j).Failure? then
      assert !PctReady(layers, units, sorted, j);
      Some(Divisor(layers, units, j).error)
    else
      assert PctReady(layers, units, sorted, j);
      PctError(layers, units, sorted, j + 1)
  }

  /** `calculation_units_pct`: per requested name, its share of each layer's
      configured unit count, in percent, one entry per layer in layer order. */
  function UnitsPct(layers: seq<string>, units: seq<int>, sortDict: map<string, LayerSort>, used: seq<string>): (r: Result<map<string, seq<real>>, Error>)
    requires forall l :: l in sortDict ==> Complete(sortDict[l])
    ensures r.Success? ==> r.value.Keys == set k | k in used
    ensures r.Success? <==>
      || used == [] || layers == []
      || ((forall k :: k in used ==> Known(k)) &&
          (forall j :: 0 <= j < |layers| ==> layers[j] in sortDict && j < |units| && units[j] != 0))
  {
    if used == [] || layers == [] then Success(map k | k in used :: [])
    else
      var sorted :- SortDict(sortDict, set k | k in used);
      var e := PctError(layers, units, sorted, 0);
      if e.Some? then
        PctFails(layers, units, sortDict, used, sorted);
        Failure(e.value)
      else
        PctSucceeds(layers, units, sortDict, used, sorted);
        Success(PctTable(layers, units, sorted, used))
  }

  /** A failing position is a layer that is not stored or lacks a usable unit count. */
  lemma PctFails(layers: seq<string>, units: seq<int>, sortDict: map<string, LayerSort>, used: seq<string>,
                 sorted: map<string, map<string, seq<int>>>)
    requires sorted.Keys == sortDict.Keys
    requires PctError(layers, units, sorted, 0).Some?
    ensures exists j :: 0 <= j < |layers| && !(layers[j] in sortDict && j < |units| && units[j] != 0)
  {
    var j :| 0 <= j < |layers| && !PctReady(layers, units, sorted, j);
  }

  /** With no failing position, every requested name is known, every layer
      is stored with a usable unit count, and every sorted layer holds every name. */
  lemma PctSucceeds(layers: seq<string>, units: seq<int>, sortDict: map<string, LayerSort>, used: seq<string>,
                    sorted: map<string, map<string, seq<int>>>)
    requires forall l :: l in sortDict ==> Complete(sortDict[l])
    requires layers != []
    requires SortDict(sortDict, set k | k in used) == Success(sorted)
    requires PctError(layers, units, sorted, 0).None?
    ensures forall k :: k in used ==> Known(k)
    ensures forall j :: 0 <= j < |layers| ==> layers[j] in sortDict && j < |units| && units[j] != 0
    ensures forall j :: 0 <= j < |layers| ==> PctReady(layers, units, sorted, j)
    ensures forall l, k :: l in sorted && k in used ==> k in sorted[l]
  {
    var names := set k | k in used;
    assert PctReady(layers, units, sorted, 0);
    assert layers[0] in sortDict;
    forall k | k in used
      ensures Known(k) && k in names
    {
      assert k in names;
    }
    forall j | 0 <= j < |layers|
      ensures layers[j] in sortDict && j < |units| && units[j] != 0
    {
      assert PctReady(layers, units, sorted, j);
    }
  }

  /** The percentages once every lookup is known to succeed. */
  function PctTable(layers: seq<string>, units: seq<int>, sorted: map<string, map<string, seq<int>>>, used: seq<string>): (m: map<string, seq<real>>)
    requires forall j :: 0 <= j < |layers| ==> PctReady(layers, units, sorted, j)
    requires forall l, k :: l in sorted && k in used ==> k in sorted[l]
    ensures m.Keys == set k | k in used
    ensures forall k :: k in used ==> |m[k]| == |layers|
    ensures forall k, j :: k in used && 0 <= j < |layers| ==>
      PctReady(layers, units, sorted, j) && m[k][j] == Percent(|sorted[layers[j]][k]|, units[j])
  {
    map k | k in used ::
      seq(|layers|, j requires 0 <= j < |layers| =>
        assert PctReady(layers, units, sorted, j);
        Percent(|sorted[layers[j]][k]|, units[j]))
  }

  /** `count / total * 100`. */
  function Percent(count: nat, total: int): (p: real)
    requires total != 0
    ensures p * (total as real) == 100.0 * (count as real)
  {
    (count as real) / (total as real) * 100.0
  }

  /** A successful, non-trivial percentage table is the table of a successful sort. */
  lemma UnitsPctIsTable(layers: seq<string>, units: seq<int>, sortDict: map<string, LayerSort>, used: seq<string>)
    requires forall l :: l in sortDict ==> Complete(sortDict[l])
    requires UnitsPct(layers, units, sortDict, used).Success? && used != [] && layers != []
    ensures SortDict(sortDict, set k | k in used).Success?
    ensures var sorted := SortDict(sortDict, set k | k in used).value;
      && PctError(layers, units, sorted, 0).None?
      && UnitsPct(layers, units, sortDict, used) == Success(PctTable(layers, units, sorted, used))
  {
  }

  /** A successful percentage table: every requested name is known, every
      layer is stored and has a non-zero unit count, and each entry times the
      layer's unit count is 100 times the number of units the name holds there. */
  lemma UnitsPctValues(layers: seq<string>, units: seq<int>, sortDict: map<string, LayerSort>,
                       used: seq<string>, k: string, j: nat)
    requires forall l :: l in sortDict ==> Complete(sortDict[l])
    requires UnitsPct(layers, units, sortDict, used).Success?
    requires k in used && j < |layers|
    ensures Known(k) && layers[j] in sortDict && j < |units| && units[j] != 0
    ensures var pct := UnitsPct(layers, units, sortDict, used).value;
      && k in pct && |pct[k]| == |layers|
      && pct[k][j] == Percent(|Expand(sortDict[layers[j]], Resolve(k))|, units[j])
  {
    UnitsPctIsTable(layers, units, sortDict, used);
    var names := set k | k in used;
    var sorted := SortDict(sortDict, names).value;
    assert k in names;
    assert layers[j] in sorted;
  }

  /** An unknown requested name fails the percentages once any layer is stored
      and any layer is asked for, naming every unknown name. */
  lemma UnitsPctUnknown(layers: seq<string>, units: seq<int>, sortDict: map<string, LayerSort>,
                        used: seq<string>, k: string)
    requires forall l :: l in sortDict ==> Complete(sortDict[l])
    requires k in used && !Known(k) && sortDict != map[] && layers != []
    ensures UnitsPct(layers, units, sortDict, used) == Failure(UnknownUnitTypes(set k | k in used && !Known(k)))
  {
    var names := set k | k in used;
    assert k in names;
    assert (set k | k in names && !Known(k)) == (set k | k in used && !Known(k));
  }

  /** The percentage of `qualified` in a sorted layer is 100 times the layer's
      unit count over its configured count. */
  lemma UnitsPctQualified(layers: seq<string>, units: seq<int>, sortDict: map<string, LayerSort>,
                          used: seq<string>, j: nat, a: seq<int>, encs: seq<UnitEncoding>)
    requires forall l :: l in sortDict ==> Complete(sortDict[l])
    requires UnitsPct(layers, units, sortDict, used).Success?
    requires "qualified" in used && j < |layers|
    requires layers[j] in sortDict && Sorts(sortDict[layers[j]], a, encs)
    ensures j < |units| && units[j] != 0
    ensures UnitsPct(layers, units, sortDict, used).value["qualified"][j] == Percent(|encs|, units[j])
  {
    UnitsPctValues(layers, units, sortDict, used, "qualified", j);
    QualifiedIsAllBasic();
    ExpandQualified(sortDict[layers[j]], a, encs);
  }
}
