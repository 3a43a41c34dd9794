/** The closed registry of unit types (`_unit_types`): ten base types, formed
    by crossing ANOVA significance with the five encoding classes, and the
    composite types, each a fixed list of base types. */
module Taxonomy {
  import opened Wrappers
  import opened NdArray

  /** The encoding class of a unit: high (strong) or low (weak) encoding of a
      single identity or of several, or no encoding at all. */
  datatype EncodeClass = HS | LS | HM | LM | NE

  /** Whether the externally computed ANOVA test marked the unit. */
  datatype Significance = Significant | NotSignificant

  /** A base type: `a_hs`, ..., `na_ne`. */
  datatype BaseType = BaseType(sig: Significance, cls: EncodeClass)

  /** The ten base types in the order of the `basic_types` property. */
  const BasicTypes: seq<BaseType> := [
    BaseType(Significant, HS), BaseType(Significant, LS), BaseType(Significant, HM),
    BaseType(Significant, LM), BaseType(Significant, NE),
    BaseType(NotSignificant, HS), BaseType(NotSignificant, LS), BaseType(NotSignificant, HM),
    BaseType(NotSignificant, LM), BaseType(NotSignificant, NE)]

  function BaseName(b: BaseType): string {
    match b
    case BaseType(Significant, HS) => "a_hs"
    case BaseType(Significant, LS) => "a_ls"
    case BaseType(Significant, HM) => "a_hm"
    case BaseType(Significant, LM) => "a_lm"
    case BaseType(Significant, NE) => "a_ne"
    case BaseType(NotSignificant, HS) => "na_hs"
    case BaseType(NotSignificant, LS) => "na_ls"
    case BaseType(NotSignificant, HM) => "na_hm"
    case BaseType(NotSignificant, LM) => "na_lm"
    case BaseType(NotSignificant, NE) => "na_ne"
  }

  /** Every name of the registry: the base types and the composites. */
  datatype UnitType =
    | Basic(base: BaseType)
    | Qualified
    | Selective | HighSelective | LowSelective | NonSelective
    | Anova | NonAnova
    | Encode | HighEncode | WeakEncode | NonEncode
    | AllHs | AllHm | AllLs | AllLm
    | AEncode | NaHEncode | NaLEncode | NaEncode
    | AS | AM | NaS | NaM

  /** The registry's base entries, then its composites, in the order the table lists them. */
  const BasicUnitTypes: seq<UnitType> := Entries(BasicTypes)

  const SelectivityTypes: seq<UnitType> :=
    [Qualified, Selective, HighSelective, LowSelective, NonSelective, Anova, NonAnova]

  const EncodingTypes: seq<UnitType> :=
    [Encode, HighEncode, WeakEncode, NonEncode, AllHs, AllHm, AllLs, AllLm]

  const SplitTypes: seq<UnitType> :=
    [AEncode, NaHEncode, NaLEncode, NaEncode, AS, AM, NaS, NaM]

  const AllUnitTypes: seq<UnitType> := BasicUnitTypes + SelectivityTypes + EncodingTypes + SplitTypes

  function Name(t: UnitType): string {
    match t
    case Basic(b) => BaseName(b)
    case Qualified => "qualified"
    case Selective => "selective"
    case HighSelective => "high_selective"
    case LowSelective => "low_selective"
    case NonSelective => "non_selective"
    case Anova => "anova"
    case NonAnova => "non_anova"
    case Encode => "encode"
    case HighEncode => "high_encode"
    case WeakEncode => "weak_encode"
    case NonEncode => "non_encode"
    case AllHs => "hs"
    case AllHm => "hm"
    case AllLs => "ls"
    case AllLm => "lm"
    case AEncode => "a_encode"
    case NaHEncode => "na_h_encode"
    case NaLEncode => "na_l_encode"
    case NaEncode => "na_encode"
    case AS => "a_s"
    case AM => "a_m"
    case NaS => "na_s"
    case NaM => "na_m"
  }

  /** The base types a registry entry stands for, in the table's order. */
  function Components(t: UnitType): seq<BaseType> {
    var aHs, aLs, aHm, aLm, aNe := BaseType(Significant, HS), BaseType(Significant, LS),
      BaseType(Significant, HM), BaseType(Significant, LM), BaseType(Significant, NE);
    var naHs, naLs, naHm, naLm, naNe := BaseType(NotSignificant, HS), BaseType(NotSignificant, LS),
      BaseType(NotSignificant, HM), BaseType(NotSignificant, LM), BaseType(NotSignificant, NE);
    match t
    case Basic(b) => [b]
    case Qualified => [aHs, aLs, aHm, aLm, aNe, naHs, naLs, naHm, naLm, naNe]
    case Selective => [aHs, aLs, aHm, aLm]
    case HighSelective => [aHs, aHm]
    case LowSelective => [aLs, aLm]
    case NonSelective => [aNe, naHs, naLs, naHm, naLm, naNe]
    case Anova => [aHs, aLs, aHm, aLm, aNe]
    case NonAnova => [naHs, naLs, naHm, naLm, naNe]
    case Encode => [aHs, naHs, aLs, naLs, aHm, naHm, aLm, naLm]
    case HighEncode => [aHs, naHs, aHm, naHm]
    case WeakEncode => [aLs, naLs, aLm, naLm]
    case NonEncode => [aNe, naNe]
    case AllHs => [aHs, naHs]
    case AllHm => [aHm, naHm]
    case AllLs => [aLs, naLs]
    case AllLm => [aLm, naLm]
    case AEncode => [aHs, aLs, aHm, aLm]
    case NaHEncode => [naHs, naHm]
    case NaLEncode => [naLs, naLm]
    case NaEncode => [naHs, naLs, naHm, naLm]
    case AS => [aHs, aLs]
    case AM => [aHm, aLm]
    case NaS => [naHs, naLs]
    case NaM => [naHm, naLm]
  }

  /** The base entries of the registry standing for `bs`, one by one. */
  function Entries(bs: seq<BaseType>): seq<UnitType> {
    seq(|bs|, j requires 0 <= j < |bs| => Basic(bs[j]))
  }

  /** The names of the base types `bs`, one by one. */
  function BaseNames(bs: seq<BaseType>): seq<string> {
    seq(|bs|, j requires 0 <= j < |bs| => BaseName(bs[j]))
  }

  function ComponentNames(t: UnitType): seq<string> {
    BaseNames(Components(t))
  }

  /** Reads a registry name; `None` for a name the registry does not hold.
      The names are told apart by length first, then by spelling. */
  function Parse(s: string): Option<UnitType> {
    var n := |s|;
    if n == 2 then
      if s == "hs" then Some(AllHs)
      else if s == "hm" then Some(AllHm)
      else if s == "ls" then Some(AllLs)
      else if s == "lm" then Some(AllLm)
      else None
    else if n == 3 then
      if s == "a_s" then Some(AS)
      else if s == "a_m" then Some(AM)
      else None
    else if n == 4 then
      if s == "a_hs" then Some(Basic(BaseType(Significant, HS)))
      else if s == "a_ls" then Some(Basic(BaseType(Significant, LS)))
      else if s == "a_hm" then Some(Basic(BaseType(Significant, HM)))
      else if s == "a_lm" then Some(Basic(BaseType(Significant, LM)))
      else if s == "a_ne" then Some(Basic(BaseType(Significant, NE)))
      else if s == "na_s" then Some(NaS)
      else if s == "na_m" then Some(NaM)
      else None
    else if n == 5 then
      if s == "na_hs" then Some(Basic(BaseType(NotSignificant, HS)))
      else if s == "na_ls" then Some(Basic(BaseType(NotSignificant, LS)))
      else if s == "na_hm" then Some(Basic(BaseType(NotSignificant, HM)))
      else if s == "na_lm" then Some(Basic(BaseType(NotSignificant, LM)))
      else if s == "na_ne" then Some(Basic(BaseType(NotSignificant, NE)))
      else if s == "anova" then Some(Anova)
      else None
    else if n == 6 then
      if s == "encode" then Some(Encode) else None
    else if n == 8 then
      if s == "a_encode" then Some(AEncode) else None
    else if n == 9 then
      if s == "qualified" then Some(Qualified)
      else if s == "selective" then Some(Selective)
      else if s == "non_anova" then Some(NonAnova)
      else if s == "na_encode" then Some(NaEncode)
      else None
    else if n == 10 then
      if s == "non_encode" then Some(NonEncode) else None
    else if n == 11 then
      if s == "high_encode" then Some(HighEncode)
      else if s == "weak_encode" then Some(WeakEncode)
      else if s == "na_h_encode" then Some(NaHEncode)
      else if s == "na_l_encode" then Some(NaLEncode)
      else None
    else if n == 13 then
      if s == "low_selective" then Some(LowSelective)
      else if s == "non_selective" then Some(NonSelective)
      else None
    else if n == 14 then
      if s == "high_selective" then Some(HighSelective) else None
    else None
  }

  /** Every entry's name reads back as that entry, so names are distinct. */
  lemma ParseName(t: UnitType)
    ensures Parse(Name(t)) == Some(t)
  {
    if t.Basic? {
      ParseBaseName(t.base);
    } else {
      ParseCompositeName(t);
    }
  }

  lemma ParseBaseName(b: BaseType)
    ensures Parse(BaseName(b)) == Some(Basic(b))
  {
  }

  lemma ParseCompositeName(t: UnitType)
    requires !t.Basic?
    ensures Parse(Name(t)) == Some(t)
  {
    if t.Qualified? || t.Selective? || t.HighSelective? || t.LowSelective? || t.NonSelective? || t.Anova? || t.NonAnova? {
      ParseSelectivityName(t);
    } else if t.Encode? || t.HighEncode? || t.WeakEncode? || t.NonEncode? {
      ParseEncodingName(t);
    } else if t.AllHs? || t.AllHm? || t.AllLs? || t.AllLm? {
      ParseClassName(t);
    } else if t.AEncode? || t.AS? || t.AM? {
      ParseSplitName(t);
    } else {
      ParseNonAnovaSplitName(t);
    }
  }

  lemma ParseSelectivityName(t: UnitType)
    requires t.Qualified? || t.Selective? || t.HighSelective? || t.LowSelective? || t.NonSelective? || t.Anova? || t.NonAnova?
    ensures Parse(Name(t)) == Some(t)
  {
    match t
    case Qualified => assert Parse("qualified") == Some(Qualified);
    case Selective => assert Parse("selective") == Some(Selective);
    case HighSelective => assert Parse("high_selective") == Some(HighSelective);
    case LowSelective => assert Parse("low_selective") == Some(LowSelective);
    case NonSelective => assert Parse("non_selective") == Some(NonSelective);
    case Anova => assert Parse("anova") == Some(Anova);
    case NonAnova => assert Parse("non_anova") == Some(NonAnova);
  }

  lemma ParseEncodingName(t: UnitType)
    requires t.Encode? || t.HighEncode? || t.WeakEncode? || t.NonEncode?
    ensures Parse(Name(t)) == Some(t)
  {
    match t
    case Encode => assert Parse("encode") == Some(Encode);
    case HighEncode => assert Parse("high_encode") == Some(HighEncode);
    case WeakEncode => assert Parse("weak_encode") == Some(WeakEncode);
    case NonEncode => assert Parse("non_encode") == Some(NonEncode);
  }

  lemma ParseClassName(t: UnitType)
    requires t.AllHs? || t.AllHm? || t.AllLs? || t.AllLm?
    ensures Parse(Name(t)) == Some(t)
  {
    match t
    case AllHs => assert Parse("hs") == Some(AllHs);
    case AllHm => assert Parse("hm") == Some(AllHm);
    case AllLs => assert Parse("ls") == Some(AllLs);
    case AllLm => assert Parse("lm") == Some(AllLm);
  }

  lemma ParseSplitName(t: UnitType)
    requires t.AEncode? || t.AS? || t.AM?
    ensures Parse(Name(t)) == Some(t)
  {
    match t
    case AEncode => assert Parse("a_encode") == Some(AEncode);
    case AS => assert Parse("a_s") == Some(AS);
    case AM => assert Parse("a_m") == Some(AM);
  }

  lemma ParseNonAnovaSplitName(t: UnitType)
    requires t.NaHEncode? || t.NaLEncode? || t.NaEncode? || t.NaS? || t.NaM?
    ensures Parse(Name(t)) == Some(t)
  {
    match t
    case NaHEncode => assert Parse("na_h_encode") == Some(NaHEncode);
    case NaLEncode => assert Parse("na_l_encode") == Some(NaLEncode);
    case NaEncode => assert Parse("na_encode") == Some(NaEncode);
    case NaS => assert Parse("na_s") == Some(NaS);
    case NaM => assert Parse("na_m") == Some(NaM);
  }

  lemma NameInjective()
    ensures forall t1, t2 :: Name(t1) == Name(t2) ==> t1 == t2
  {
    forall t1, t2 | Name(t1) == Name(t2)
      ensures t1 == t2
    {
      ParseName(t1);
      ParseName(t2);
    }
  }

  lemma ListedUnitType(t: UnitType)
    ensures t in AllUnitTypes
  {
    if t.Basic? {
      ListedBasic(t.base);
    } else {
      ListedComposite(t);
    }
  }

  /** Every base type is one of the ten. */
  lemma BasicListed(b: BaseType)
    ensures b in BasicTypes
  {
    match b
    case BaseType(Significant, HS) => assert BasicTypes[0] == b;
    case BaseType(Significant, LS) => assert BasicTypes[1] == b;
    case BaseType(Significant, HM) => assert BasicTypes[2] == b;
    case BaseType(Significant, LM) => assert BasicTypes[3] == b;
    case BaseType(Significant, NE) => assert BasicTypes[4] == b;
    case BaseType(NotSignificant, HS) => assert BasicTypes[5] == b;
    case BaseType(NotSignificant, LS) => assert BasicTypes[6] == b;
    case BaseType(NotSignificant, HM) => assert BasicTypes[7] == b;
    case BaseType(NotSignificant, LM) => assert BasicTypes[8] == b;
    case BaseType(NotSignificant, NE) => assert BasicTypes[9] == b;
  }

  lemma ListedBasic(b: BaseType)
    ensures Basic(b) in AllUnitTypes
  {
    BasicListed(b);
    var i :| 0 <= i < |BasicTypes| && BasicTypes[i] == b;
    assert BasicUnitTypes[i] == Basic(b);
  }

  lemma ListedComposite(t: UnitType)
    requires !t.Basic?
    ensures t in AllUnitTypes
  {
    if t.Qualified? || t.Selective? || t.HighSelective? || t.LowSelective? || t.NonSelective? || t.Anova? || t.NonAnova? {
      assert t in SelectivityTypes;
    } else if t.Encode? || t.HighEncode? || t.WeakEncode? || t.NonEncode? || t.AllHs? || t.AllHm? || t.AllLs? || t.AllLm? {
      assert t in EncodingTypes;
    } else {
      assert t in SplitTypes;
    }
  }

  /** Whether the registry holds the name `k`. */
  predicate Known(k: string) {
    Parse(k).Some? && Name(Parse(k).value) == k
  }

  /** The entry a name the registry holds stands for. */
  function Resolve(k: string): (t: UnitType)
    requires Known(k)
    ensures Parse(k) == Some(t) && Name(t) == k
  {
    Parse(k).value
  }

  /** The registry table `k_d`: each name to the names of its base types. */
  function Registry(): map<string, seq<string>> {
    NameInjective();
    map t | t in AllUnitTypes :: Name(t) := ComponentNames(t)
  }

  lemma RegistryHolds(t: UnitType)
    ensures Name(t) in Registry() && Registry()[Name(t)] == ComponentNames(t)
  {
    NameInjective();
    ListedUnitType(t);
  }

  /** The table holds exactly the names `Parse` reads, each to the base names
      of the entry it reads as. */
  lemma RegistryKnown(k: string)
    ensures k in Registry() <==> Known(k)
    ensures Known(k) ==> Registry()[k] == ComponentNames(Resolve(k))
  {
    if Known(k) {
      RegistryHolds(Resolve(k));
    }
    if k in Registry() {
      var t :| t in AllUnitTypes && Name(t) == k;
      ParseName(t);
    }
  }

  /** The names of the requested types the table does not hold, in request order. */
  function Unknown(used: seq<string>): (r: seq<string>)
    ensures forall x :: x in r <==> x in used && !Known(x)
    decreases |used|
  {
    if used == [] then []
    else (if Known(used[0]) then [] else [used[0]]) + Unknown(used[1..])
  }

  /** `_unit_types(used_unit_types)`: the whole table, or the entries asked
      for; an unknown name fails, listing every offending name. */
  function UnitTypes(used: Option<seq<string>>): (r: Result<map<string, seq<string>>, seq<string>>)
    ensures used.None? ==> r == Success(Registry())
    ensures used.Some? ==> (r.Success? <==> forall k :: k in used.value ==> Known(k))
    ensures used.Some? && r.Success? ==>
      && r.value.Keys == (set k | k in used.value)
      && forall k :: k in r.value ==> Known(k) && r.value[k] == ComponentNames(Resolve(k))
    ensures used.Some? && r.Failure? ==>
      && r.error != []
      && forall x :: x in r.error <==> x in used.value && !Known(x)
  {
    match used
    case None => Success(Registry())
    case Some(names) =>
      var bad := Unknown(names);
      if bad != [] then
        assert bad[0] in bad;
        Failure(bad)
      else
        Success(map k | k in names :: ComponentNames(Resolve(k)))
  }

  /** Whatever `UnitTypes` returns agrees with the table. */
  lemma UnitTypesFromRegistry(used: Option<seq<string>>, k: string)
    requires UnitTypes(used).Success? && k in UnitTypes(used).value
    ensures k in Registry() && UnitTypes(used).value[k] == Registry()[k]
  {
    RegistryKnown(k);
  }

  /** The ten base names, in the order of `basic_types`. */
  const BasicNames: seq<string> := BaseNames(BasicTypes)

  /** Each base name is an entry that stands for itself alone. */
  lemma BasicIsItself(b: BaseType)
    ensures BaseName(b) in BasicNames
    ensures Known(BaseName(b)) && Resolve(BaseName(b)) == Basic(b)
    ensures ComponentNames(Basic(b)) == [BaseName(b)]
  {
    ParseName(Basic(b));
    BasicListed(b);
    var i :| 0 <= i < |BasicTypes| && BasicTypes[i] == b;
    assert BasicNames[i] == BaseName(b);
  }

  /** `qualified` stands for all ten base types, in the order of `basic_types`. */
  lemma QualifiedIsAllBasic()
    ensures Known("qualified") && Resolve("qualified") == Qualified
    ensures Components(Qualified) == BasicTypes
    ensures ComponentNames(Qualified) == BasicNames
  {
    ParseName(Qualified);
  }

  /** No entry lists a base type twice. */
  lemma ComponentsDistinct(t: UnitType)
    ensures |Components(t)| > 0 && NoDup(Components(t))
  {
    if t.Basic? {
    } else if t.Qualified? || t.Selective? || t.HighSelective? || t.LowSelective? {
      ComponentsDistinctWide(t);
    } else if t.NonSelective? || t.Anova? || t.NonAnova? || t.Encode? {
      ComponentsDistinctMid(t);
    } else if t.HighEncode? || t.WeakEncode? || t.NonEncode? || t.AllHs? || t.AllHm? || t.AllLs? || t.AllLm? {
      ComponentsDistinctPairs(t);
    } else {
      ComponentsDistinctSplit(t);
    }
  }

  lemma ComponentsDistinctWide(t: UnitType)
    requires t.Qualified? || t.Selective? || t.HighSelective? || t.LowSelective?
    ensures |Components(t)| > 0 && NoDup(Components(t))
  {
  }

  lemma ComponentsDistinctMid(t: UnitType)
    requires t.NonSelective? || t.Anova? || t.NonAnova? || t.Encode?
    ensures |Components(t)| > 0 && NoDup(Components(t))
  {
  }

  lemma ComponentsDistinctPairs(t: UnitType)
    requires t.HighEncode? || t.WeakEncode? || t.NonEncode? || t.AllHs? || t.AllHm? || t.AllLs? || t.AllLm?
    ensures |Components(t)| > 0 && NoDup(Components(t))
  {
  }

  lemma ComponentsDistinctSplit(t: UnitType)
    requires t.AEncode? || t.NaHEncode? || t.NaLEncode? || t.NaEncode? || t.AS? || t.AM? || t.NaS? || t.NaM?
    ensures |Components(t)| > 0 && NoDup(Components(t))
  {
  }

  /** Every entry lists one or more base names and none twice. */
  lemma EntriesAreBasic(t: UnitType)
    ensures |ComponentNames(t)| > 0 && NoDup(ComponentNames(t))
    ensures forall j :: 0 <= j < |ComponentNames(t)| ==> ComponentNames(t)[j] in BasicNames
  {
    var names := ComponentNames(t);
    ComponentsDistinct(t);
    forall j | 0 <= j < |names|
      ensures names[j] in BasicNames
    {
      BasicIsItself(Components(t)[j]);
    }
    forall i, j | 0 <= i < j < |names|
      ensures names[i] != names[j]
    {
      var bi, bj := Components(t)[i], Components(t)[j];
      BasicIsItself(bi);
      BasicIsItself(bj);
    }
  }
}
