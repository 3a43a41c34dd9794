# FSA_Encode: unit encoding, type sorting and frequency map

This project models the analysis engine in `similarity/FSA_Encode.py` and proves what it computes.

The engine takes the units of each layer of a network and works in four stages:

- **Classifier.** For each unit, it decides which identities the unit encodes: strongly (`encode`) or weakly (`weak_encode`).
- **Sorter.** It files each unit under one of five encoding classes (`hs`, `ls`, `hm`, `lm`, `non_encode`). It crosses that class with ANOVA significance to get ten base types, `a_hs` … `na_ne`.
- **Registry.** It expands composite unit types (`qualified`, `selective`, `encode`, …) through a fixed table into concatenations of base-type arrays.
- **Frequency map.** For every unit type and layer, it counts how often each identity turns up among the type's units, relative to the layer's unit count.

Modules:

- `Wrappers`: Option, Result and the error causes.
- `NdArray`: the numpy index operations used, over `seq<int>`.
- `Encoding`: the per-unit classifier.
- `Taxonomy`: the registry `_unit_types`.
- `Sorting`: the five-way class, the ten base categories, `calculation_Sort_dict` and `calculation_units_pct`.
- `Frequency`: `calculation_freq_map` as functions, plus the lemmas about them.
- `Analysis`: the class `FsaEncode`, whose methods hold the loops of `calculation_Encode` and `calculation_freq_map`, proved against the functions above.

Inputs the model takes as given:

- **Per-unit responses.** Each unit's per-identity group means, its `threshold` and its `ref` are parameters (`UnitResponse`). Computing them from the feature matrix means reading a file and taking square roots.
- **Classifier arguments.** The class calls the per-unit classifier with no keyword arguments (line 129). The group means therefore always use the default of 50 identities, independent of the object's `num_classes`. The model keeps these two quantities apart, as the source does.
- **ANOVA indices and responses.** They come in as maps from layer name to value, in place of the pickles the source loads.
- **Unit counts.** `units` is a sequence of integers. Dividing by an entry that is missing or zero is an error (`MissingUnitCount`, `ZeroUnitCount`). In Python the lookup `self.units[idx]` raises `IndexError` for a missing position, and the true division `/` at lines 188 and 479 raises `ZeroDivisionError` when the divisor is the integer 0.
- **Unit-type names.** They are strings. Internally the registry is a datatype (`UnitType`, `BaseType`), with `Name` and `Parse` translating between the two.

## Model

| member | source | states |
|---|---|---|
| Encoding.CalculationEncode | similarity/FSA_Encode.py:843-850 | identity i is in `encode` iff its mean is strictly above `threshold`; it is in `weak_encode` iff its mean is strictly above `ref` and not above `threshold`; both arrays are strictly increasing, disjoint and inside the identity range |
| Encoding.EncodeLayer | similarity/FSA_Encode.py:129-130 | one classification per unit, in unit order, each the classifier applied to that unit's responses, each well formed and in range |
| Encoding.OnlyIdentityAboveThreshold | similarity/FSA_Encode.py:847 | a unit with exactly one identity above `threshold` has `encode` equal to that single identity |
| Encoding.NothingAboveCutOffs | similarity/FSA_Encode.py:847-848 | a unit with no mean above either cut-off encodes nothing, strongly or weakly |
| Encoding.TwoIdentityScenario | similarity/FSA_Encode.py:847-848 | means 1 and 10, with both cut-offs at 14.5, give empty `encode` and `weak_encode` |
| NdArray.WhereGreater | similarity/FSA_Encode.py:847 | `np.where(x > t)[0]`: strictly increasing; holds exactly the positions whose value is strictly above `t` |
| NdArray.SetDiff1d | similarity/FSA_Encode.py:848 | `np.setdiff1d`: strictly increasing; holds exactly the values of the first array that are not in the second |
| NdArray.Intersect1d | similarity/FSA_Encode.py:155-165 | `np.intersect1d`: strictly increasing; holds exactly the values in both arrays |
| NdArray.Arange | similarity/FSA_Encode.py:126 | `np.arange(n)`: length `n`, strictly increasing, holds exactly `0..n-1` |
| NdArray.ConcatMembership | similarity/FSA_Encode.py:182 | a value is in a concatenation iff it is in one of the pieces |
| NdArray.ConcatLength | similarity/FSA_Encode.py:182 | a concatenation is as long as its pieces together |
| NdArray.ConcatNoDup | similarity/FSA_Encode.py:182 | duplicate-free, pairwise disjoint pieces concatenate to a duplicate-free array |
| NdArray.IncreasingDeterminedByElements | similarity/FSA_Encode.py:847-848 | two strictly increasing arrays with the same elements are equal |
| Sorting.Classify | similarity/FSA_Encode.py:142-151 | the if-chain always files the unit; `hs` iff exactly one strong identity; `hm` iff more than one, whatever `weak_encode` holds; `ls`, `lm`, `non_encode` iff no strong identity and one, several or no weak ones |
| Sorting.BaseOf | similarity/FSA_Encode.py:125-151 | no contract of its own: a unit's base type, from its ANOVA membership and its class; characterised by Sorting.SortLayerPartition and Sorting.SortLayerDisjointAndCovering |
| Sorting.ClassIndices | similarity/FSA_Encode.py:141-151 | a class list is strictly increasing and holds exactly the units of that class |
| Sorting.ClassifyUnits | similarity/FSA_Encode.py:135-151 | the append loop leaves each of the five lists equal to the class list of its class |
| Sorting.Category | similarity/FSA_Encode.py:154-166 | no contract of its own: one base type's array; characterised by Sorting.CategoryMembers |
| Sorting.BaseSort | similarity/FSA_Encode.py:154-166 | no contract of its own: the ten intersections of the class lists with `a` and `na`; characterised by Analysis.SortUnits |
| Sorting.SortLayer | similarity/FSA_Encode.py:126-166 | no contract of its own: a layer's base table; characterised by Sorting.SortLayerAt, Sorting.SortLayerPartition and Sorting.SortLayerDisjointAndCovering |
| Sorting.SortLayerAt | similarity/FSA_Encode.py:154-166 | the layer table has every base type, and each entry is that type's category |
| Sorting.CategoryMembers | similarity/FSA_Encode.py:126-166 | a category array is strictly increasing and holds exactly the units whose ANOVA membership and class make up its base type |
| Sorting.SortLayerPartition | similarity/FSA_Encode.py:126-166 | the ten arrays of a layer are increasing, hold only units of their own base type, and together hold every unit of the layer |
| Sorting.SortLayerDisjointAndCovering | similarity/FSA_Encode.py:154-166 | no unit is in two base arrays, and every unit's base type is one of the ten listed |
| Sorting.Parts | similarity/FSA_Encode.py:182 | the base arrays an entry stands for, one per base name, in the table's order |
| Sorting.Expand | similarity/FSA_Encode.py:182 | no contract of its own: the `np.concatenate` of an entry's base arrays; characterised by Sorting.ExpandLength, Sorting.ExpandMembership, Sorting.ExpandNoDup and Sorting.ExpandQualified |
| Sorting.ExpandLength | similarity/FSA_Encode.py:182 | a composite's array is as long as its base arrays together |
| Sorting.ExpandMembership | similarity/FSA_Encode.py:182 | a unit is in a composite's array iff its base type is one of the composite's |
| Sorting.ExpandNoDup | similarity/FSA_Encode.py:182 | a composite's array holds no unit twice |
| Sorting.ExpandQualified | similarity/FSA_Encode.py:182 | `qualified` holds exactly the units `0..n-1` of the layer, each once |
| Sorting.SortDict | similarity/FSA_Encode.py:176-182 | fails iff some layer is stored and some requested name is unknown, naming those names; on success, every stored layer maps every requested name to that name's expansion |
| Sorting.Divisor | similarity/FSA_Encode.py:188 | the unit count at a position can be divided by iff it exists and is non-zero |
| Sorting.PctError | similarity/FSA_Encode.py:188 | no error from position `j` on iff every later layer is sorted and has a usable unit count |
| Sorting.UnitsPct | similarity/FSA_Encode.py:185-188 | on success, the keys are exactly the requested names; it succeeds iff nothing is requested, or there are no layers, or every requested name is known and every layer is stored with a non-zero count |
| Sorting.PctFails | similarity/FSA_Encode.py:188 | a failing position is a layer that is not stored or has no usable unit count |
| Sorting.PctSucceeds | similarity/FSA_Encode.py:188 | with no failure, every requested name is known and every layer is stored and has a non-zero count |
| Sorting.PctTable | similarity/FSA_Encode.py:188 | one entry per requested name, one value per layer in layer order, each the name's share of that layer's unit count |
| Sorting.Percent | similarity/FSA_Encode.py:188 | the percentage times the count is 100 times the number of units |
| Sorting.UnitsPctValues | similarity/FSA_Encode.py:188 | entry `j` of a name's array is the size of its expansion in layer `j`, in percent of that layer's count |
| Sorting.UnitsPctUnknown | similarity/FSA_Encode.py:188 | an unknown requested name fails the percentages, naming every unknown name, once any layer is stored and asked for |
| Sorting.UnitsPctQualified | similarity/FSA_Encode.py:188 | `qualified` is 100 times the layer's unit total over its configured count |
| Taxonomy.Name | similarity/FSA_Encode.py:775-816 | no contract of its own: each entry's key in `k_d`; characterised by Taxonomy.ParseName and Taxonomy.NameInjective |
| Taxonomy.Components | similarity/FSA_Encode.py:775-816 | no contract of its own: each entry's list of base types; characterised by Taxonomy.ComponentsDistinct, Taxonomy.EntriesAreBasic and Taxonomy.QualifiedIsAllBasic |
| Taxonomy.Parse | similarity/FSA_Encode.py:823 | no contract of its own: the membership test `_ in k_d`, reading a name back to its entry; characterised by Taxonomy.ParseName and Taxonomy.Resolve |
| Taxonomy.Registry | similarity/FSA_Encode.py:772-820 | no contract of its own: the table `k_d`; characterised by Taxonomy.RegistryHolds and Taxonomy.RegistryKnown |
| Taxonomy.ParseName | similarity/FSA_Encode.py:772-820 | every entry's name reads back as that entry |
| Taxonomy.NameInjective | similarity/FSA_Encode.py:772-820 | no two entries share a name |
| Taxonomy.ListedUnitType | similarity/FSA_Encode.py:772-820 | every entry is listed in the table |
| Taxonomy.Resolve | similarity/FSA_Encode.py:824 | a known name resolves to the entry with that name |
| Taxonomy.RegistryHolds | similarity/FSA_Encode.py:772-820 | the table maps every entry's name to the names of its base types |
| Taxonomy.RegistryKnown | similarity/FSA_Encode.py:772-820 | the table holds a name iff it is known, and then maps it to its entry's base names |
| Taxonomy.Unknown | similarity/FSA_Encode.py:823 | the names listed in the failure message are exactly the requested names that are not in the table |
| Taxonomy.UnitTypes | similarity/FSA_Encode.py:769-826 | with no request, the whole table; with a request, success iff every name is known, and then exactly the requested keys, each mapped to its table entry; otherwise a non-empty failure listing exactly the unknown names |
| Taxonomy.UnitTypesFromRegistry | similarity/FSA_Encode.py:824 | every entry of a restricted table is the full table's entry |
| Taxonomy.BasicIsItself | similarity/FSA_Encode.py:775-784 | each base name is in the table and stands for itself alone |
| Taxonomy.QualifiedIsAllBasic | similarity/FSA_Encode.py:787 | `qualified` stands for the ten base types, in the order of `basic_types` |
| Taxonomy.ComponentsDistinct | similarity/FSA_Encode.py:775-816 | no entry is empty or lists a base type twice |
| Taxonomy.EntriesAreBasic | similarity/FSA_Encode.py:775-816 | every entry lists one or more base names with no repeats |
| Frequency.EncodeTypeCheck | similarity/FSA_Encode.py:451-452 | no contract of its own: `_encode_type_check`; characterised by Frequency.EncodeTypeOfBase and Frequency.EncodeTypeOfComposite |
| Frequency.EncodeTypeOfBase | similarity/FSA_Encode.py:451-452 | `a_hs`, `a_hm`, `na_hs` and `na_hm` pool `encode`; `a_ls`, `a_lm`, `na_ls` and `na_lm` pool `weak_encode`; `a_ne` and `na_ne` pool both |
| Frequency.EncodeTypeOfComposite | similarity/FSA_Encode.py:451-452 | every composite name pools `encode` plus `weak_encode` |
| Frequency.UnitPoolCount | similarity/FSA_Encode.py:472-474 | a well-formed unit contributes each identity to a pool at most once |
| Frequency.Pools | similarity/FSA_Encode.py:472-474 | one piece per unit of the category, each the unit's pooled array |
| Frequency.IdPool | similarity/FSA_Encode.py:470-476 | no contract of its own: `id_pool`, the units' pooled arrays concatenated, or empty for an empty category; characterised by Frequency.PoolCount |
| Frequency.UnitsHolding | similarity/FSA_Encode.py:468-478 | the number of the category's units holding an identity is at most the number of its units, and zero for an empty category |
| Frequency.PoolCount | similarity/FSA_Encode.py:470-478 | the `Counter` of a pool gives each identity the number of the category's units that hold it |
| Frequency.Ratio | similarity/FSA_Encode.py:479 | the ratio times the unit count is the count; it is zero iff the count is |
| Frequency.FreqVector | similarity/FSA_Encode.py:479 | a frequency vector has `num_classes` entries |
| Frequency.FreqLayer | similarity/FSA_Encode.py:466-479 | one layer's frequencies hold exactly the sorted names, each with `num_classes` entries |
| Frequency.FreqError | similarity/FSA_Encode.py:462-479 | no error from position `j` on iff every later layer is sorted and encoded and, when identities are counted, has a usable unit count |
| Frequency.LastBefore | similarity/FSA_Encode.py:481 | the position whose write to `freq_layer` survives: the same layer, and no later position holds it |
| Frequency.LastBeforeDistinct | similarity/FSA_Encode.py:481 | in a run that lists no layer twice, each layer's write is its own |
| Frequency.FreqLayers | similarity/FSA_Encode.py:460-481 | after the first `n` layers, `freq_layer` holds each of them |
| Frequency.FreqLayersKeys | similarity/FSA_Encode.py:460-481 | after the first `n` layers, `freq_layer` holds exactly those layers |
| Frequency.FreqLayersStep | similarity/FSA_Encode.py:481 | one more layer adds its name to `freq_layer`, writes its frequencies there, and leaves every other layer's entry as it was |
| Frequency.FreqLayersLast | similarity/FSA_Encode.py:479-481 | a layer's entry holds the frequencies computed with the unit count of its last position |
| Frequency.Stack | similarity/FSA_Encode.py:484 | per name, `num_classes` rows of one value per layer, in layer order: entry `[i][j]` is identity `i` in the layer at position `j` |
| Frequency.WorkingSet | similarity/FSA_Encode.py:457 | the requested names plus the ten base names, or every registered name when none are requested; it always holds the base names |
| Frequency.RegistryKeys | similarity/FSA_Encode.py:457 | the registry's keys are exactly the known names |
| Frequency.BasicNamesKnown | similarity/FSA_Encode.py:775-784 | every base name is registered |
| Frequency.ExpandBelow | similarity/FSA_Encode.py:182 | a composite of base arrays that index the layer's units indexes them too |
| Frequency.SortDictBelow | similarity/FSA_Encode.py:182 | every expanded category indexes units of its layer's encodings |
| Frequency.FreqMap | similarity/FSA_Encode.py:457-484 | on success, one matrix per working name, with `num_classes` rows of one entry per layer |
| Frequency.FreqStack | similarity/FSA_Encode.py:460-484 | on success, one matrix per sorted name, with `num_classes` rows of one entry per layer |
| Frequency.FreqLayersShape | similarity/FSA_Encode.py:481-484 | after every layer, each layer holds a vector of `num_classes` entries for each name |
| Frequency.WorkingSetKnown | similarity/FSA_Encode.py:457-458 | the working set is all registered iff every requested name is |
| Frequency.FreqMapSucceeds | similarity/FSA_Encode.py:457-484 | the map is computed iff there are layers, every requested name is registered, and every layer is sorted and encoded with, when identities are counted, a usable unit count |
| Frequency.FreqMapUnknown | similarity/FSA_Encode.py:457-458 | an unregistered requested name fails the map, naming every such name, once any layer is stored |
| Frequency.FreqMapNoLayers | similarity/FSA_Encode.py:484 | with no layers the map fails, since there is nothing to stack |
| Frequency.FreqStackAt | similarity/FSA_Encode.py:481-484 | a matrix entry is the name's entry in that layer's frequencies, computed with the unit count at the layer's last position |
| Frequency.FreqMapEntry | similarity/FSA_Encode.py:468-484 | entry `[i][j]` is the number of the name's units in layer `j` whose pool holds identity `i`, over the unit count; that number is at most the number of the name's units |
| Frequency.FreqMapEmptyCategory | similarity/FSA_Encode.py:470-479 | a name with no units in a layer has frequency zero there for every identity |
| Frequency.FreqErrorSkip | similarity/FSA_Encode.py:460-479 | positions whose layers are ready leave the first failure unchanged |
| Analysis.FirstMissing | similarity/FSA_Encode.py:120-125 | the first run position whose layer has no responses or no ANOVA indices; every earlier layer has both |
| Analysis.ConsistentSorts | similarity/FSA_Encode.py:154-168 | a consistent store's sorts cover every base type and index units of their own layers |
| Analysis.StoreLayer | similarity/FSA_Encode.py:132-168 | storing a layer's encodings and its sort keeps the store consistent |
| Analysis.EncodedStore | similarity/FSA_Encode.py:129-132 | storing the classifier's output keeps every stored layer equal to the classification of its responses |
| Analysis.SortUnits | similarity/FSA_Encode.py:126-166 | the classify loop and the ten intersections give the layer's base table |
| Analysis.LayerFreq | similarity/FSA_Encode.py:466-479 | the per-name loop fails iff identities are counted, the layer has names, and its unit count is missing or zero; on success it gives that layer's frequencies |
| Analysis.LayerStep | similarity/FSA_Encode.py:462-481 | one layer pass fails iff that layer is not ready, with the run's first error; otherwise it writes the layer's frequencies under its name |
| Analysis.FreqLayersLoop | similarity/FSA_Encode.py:460-481 | the layer loop fails iff some layer raises, with the first error; otherwise it gives `freq_layer` after every layer |
| Analysis.FsaEncode.constructor | similarity/FSA_Encode.py:44-56 | keeps the layers, unit counts and identity count, with an empty store |
| Analysis.FsaEncode.CalculationEncode | similarity/FSA_Encode.py:113-168 | stores, in run order, each layer's encodings and base table up to the first layer without responses or ANOVA indices, and then reports that layer; the store stays consistent |
| Analysis.FsaEncode.CalculationFreqMap | similarity/FSA_Encode.py:455-484 | the method's loops compute exactly the frequency map `FreqMap` |

## Left out

- **Unit responses (lines 853-861).** Computing the means, the spreads and the two cut-offs needs floating point and a square root. These values are inputs instead.
- **Floating point.** Divisions and percentages are exact `real` arithmetic, so rounding is not modelled.
- **Interpolation (lines 748-765).** `calculate_intersection_point` is floating-point interpolation through scipy.
- **Plotting and style tables (lines 191-743, 830-839).** This includes `calculation_curve_dict` and the display lists `basic_types_display` and `advanced_types_display`. They are presentation only.
- **Pickle I/O and caching (lines 82-91, 104-111, 117, 122, 170-173, 179-180, 438-449, 486).** Loading, dumping, the file-existence short cuts and `make_dir` are external I/O. The feature files and ANOVA indices arrive as maps instead.
- **Parallel dispatch and progress bars (lines 129, 460).** They are concurrency plumbing. The per-unit work is a sequential map (`EncodeLayer`).
- Sorting.SortDict: Python's `KeyError` names one unknown key. The model's error carries the set of all unknown requested names.
- Sorting.UnitsPct: it fails through `calculation_Sort_dict`, so its error also carries every unknown requested name, where line 188's `KeyError` names one.
- Sorting.UnitsPctUnknown: states the same all-names error as Sorting.UnitsPct, where Python's `KeyError` names one.
- Frequency.FreqMap: it fails through `calculation_Sort_dict` at line 458, so its error also carries every unknown requested name, where Python's `KeyError` names one.
- Frequency.FreqMapUnknown: states the same all-names error as Frequency.FreqMap, where Python's `KeyError` names one.
- Frequency.FreqMap: the encodings are keyed by unit position. A sorted unit index outside its layer's encodings, which would raise `KeyError` at line 472, is excluded by the precondition `SortsBelow`. `CalculationEncode` always establishes that precondition.
- Frequency.FreqMap: `units` of `None` is modelled as an empty sequence, so every division reports `MissingUnitCount`.
- Sorting.UnitsPct: likewise, `units` of `None` is modelled as an empty sequence, so the lookup `self.units[idx]` at line 188 reports `MissingUnitCount` (Python raises `TypeError` on subscripting `None`).
- Frequency.FreqMap: with no layers, the final line reads a loop variable that was never bound (`NameError`). The model reports this as `NoLayers`.
- Analysis.FsaEncode.CalculationEncode: a missing feature file (an I/O error at line 122) and a missing ANOVA entry (a `KeyError` at line 125) both appear as `MissingLayer` for that layer.
