# IsoSpec: threshold generator, signatures, configuration helpers and formula parsing

This project models the sequential core of IsoSpec in Dafny. IsoSpec computes the isotopic fine structure of a molecule.

- **The threshold generators' odometer.** This is `IsoThresholdGeneratorFast` and `IsoThresholdGeneratorCntr`.
  - For every element of the formula there is a marginal table of sub-isotopologues, ordered by decreasing probability.
  - A configuration is an index vector `counter` with one index into each table; `counter[0]` moves fastest.
  - The arrays `partialLProbs`, `partialMasses` and `partialExpProbs` hold suffix sums (products for probabilities) along the counter.
  - `advanceToNextConfiguration` is one of two steps:
    - it moves `counter[0]` one entry on and tests the result against the cutoff `Lcutoff`;
    - or it carries into a higher position, pruned by the bound `maxConfsLPSum`.
  - The class `ThresholdGenerators.ThresholdGenerator` models both generators. `countOnly` marks the Cntr variant, which keeps log-probabilities only.
  - Its methods are proved against the value-level step `ThresholdStep.Next`. Lemmas about `Next` prove two things:
    - pruning is sound: no skipped configuration reaches the cutoff;
    - with an exact bound, every configuration produced reaches it.
- **Configuration signatures.** `get_conf_signature` writes the count vectors of the current configuration one after another into a flat buffer of `allDim` ints. On the Python side, `parse_conf` reads that buffer back into one tuple per element, using the `offsets` table. The two are proved inverse to each other.
- **The misc.h helpers.** These are `combinedSum`, `mass`, `tupleCmp` and `array_copy`.
- **The Python layer.**
  - The regular-expression formula parser and the rules by which `Iso.__init__` chooses its arguments.
  - The single-pass flag of `IsoGenerator` and the `delta < 0` assertion of `IsoLayeredGenerator`.
  - The formula parser and the attribute overrides of the older interface `Interface_test2.py`.

Values are exact: log-probabilities, masses and probabilities are `real`. The marginal tables are built by `PrecalculatedMarginal`, which is not part of this model. The model assumes that reading one entry past the end of a table gives a log-probability of minus infinity (the constructor `NegInf` of `Marginals.LogProb`), a mass of 0 and a probability of 0. The periodic table is a parameter of type `map<string, (seq<real>, seq<real>)>`, giving (masses, probabilities) for each symbol.

## Model

| member | source | states |
|---|---|---|
| ThresholdGenerators.ThresholdGenerator.AdvanceFast | IsoSpec++/isoSpec++.h:357-403 | The result is true exactly when the value-level step `Next` gives a new counter, and the counter becomes that value. On false the search is terminated and the carry has reset every position below the last. The partial arrays stay consistent with the counter. After a fast-path step, the entries at 0 of the mass and probability arrays use entry counter[0]+1 of marginal 0; after a carry they agree with the counter. |
| ThresholdGenerators.ThresholdGenerator.Carry | IsoSpec++/isoSpec++.h:372-402 | The carry succeeds exactly when some position passes the bound test (`FirstCarry`). The counter is then bumped at the first such position, all three partial arrays agree with it, and the pointers are back at base+1. Otherwise the search is terminated. |
| ThresholdGenerators.ThresholdGenerator.FindCarry | IsoSpec++/isoSpec++.h:383-392 | The carry loop stops at the first position idx whose test `partialLProbs[idx] + maxConfsLPSum[idx-1] >= Lcutoff` passes. At that point positions below idx are 0, counter[idx] is one up, positions above are unchanged, and partialLProbs[idx] is recomputed from the entry above. When no position passes, the counter is reset below the last position. |
| ThresholdGenerators.ThresholdGenerator.Settle | IsoSpec++/isoSpec++.h:394-396 | After a passing carry test, the mass and probability at idx and `recalc(idx-1)` make all three partial arrays agree with the counter at every index. |
| ThresholdGenerators.ThresholdGenerator.AdvanceCntr | IsoSpec++/isoSpec++.h:437-471 | The Cntr step has the same result and the same new counter as `Next`, and termination is handled the same way. Only log-probabilities are kept consistent. |
| ThresholdGenerators.ThresholdGenerator.CarryCntr | IsoSpec++/isoSpec++.h:449-470 | The Cntr carry succeeds exactly when `FirstCarry` finds a position; its `recalc` then restores the log-probability sums below it. |
| ThresholdGenerators.ThresholdGenerator.Recalc | IsoSpec++/isoSpec++.h:406-414 | After `recalc(idx)`, for every k <= idx, partialLProbs[k] = partialLProbs[k+1] + lProb_k(counter[k]). Masses follow the same sum rule and eProbs the product rule. Entries above idx are unchanged. |
| ThresholdGenerators.ThresholdGenerator.RecalcLProbs | IsoSpec++/isoSpec++.h:474-480 | The Cntr `recalc`: the log-probability rule holds at every k <= idx, and entries above idx are unchanged. |
| ThresholdGenerators.ThresholdGenerator.constructor | IsoSpec++/isoSpec++.h:333-353 | The generator starts with counter [-1, 0, ..., 0] and all three pointers at base. The partial arrays are consistent with that counter. The counter, the three partial arrays and the copy of maxConfsLPSum are new arrays, owned by the generator. |
| ThresholdGenerators.FirstConfiguration | IsoSpec++/isoSpec++.h:333-403 | A newly built Fast generator can be advanced, and its first advance gives exactly the step `Next` takes from [-1, 0, ..., 0]: success when `Next` finds a configuration, and then that configuration. |
| ThresholdGenerators.ThresholdGenerator.LProb | IsoSpec++/isoSpec++.h:174 | lprob() is the log-probability of the whole current configuration. |
| ThresholdGenerators.ThresholdGenerator.Mass | IsoSpec++/isoSpec++.h:180 | mass() is the configuration's mass after construction or a carry. After a fast-path step, marginal 0 contributes the mass of entry counter[0]+1. |
| ThresholdGenerators.ThresholdGenerator.EProb | IsoSpec++/isoSpec++.h:186 | eprob() is the probability, read the same way as mass(). |
| ThresholdGenerators.ThresholdGenerator.ConfSignature | IsoSpec++/isoSpec++.h:269-276 | The first allDim ints of space become the flattened count vectors of the configuration the counter names. The rest of space is unchanged. |
| ThresholdGenerators.SignatureLength | IsoSpec++/isoSpec++.h:71 | A threshold signature holds exactly allDim = Σ isotopeNumbers ints. |
| ThresholdGenerators.RecalcRestores | IsoSpec++/isoSpec++.h:406-414 | The recalc rules below hi, with correct entries from hi up, give arrays that agree with the counter at every index. |
| ThresholdGenerators.FastStep | IsoSpec++/isoSpec++.h:359-364 | After the fast-path write, partialLProbs[0] is the log-probability of the counter with position 0 one up. The test passes exactly when `FastPasses` holds, and the bumped counter is then a valid counter. |
| ThresholdGenerators.CarryTest | IsoSpec++/isoSpec++.h:391-392 | The carry's test on the recomputed partialLProbs[idx] is exactly `CarryPasses`. A passing test implies the new index is inside marginal idx's table. |
| ThresholdGenerators.CarryStep | IsoSpec++/isoSpec++.h:391-395 | The writes at idx make the partial arrays agree with the bumped counter from idx up. |
| ThresholdStep.Bumped | IsoSpec++/isoSpec++.h:383-390 | A carry that stops at idx sets positions 0..idx-1 to 0 and raises counter[idx] by one; positions above idx are unchanged. |
| ThresholdStep.FirstCarry | IsoSpec++/isoSpec++.h:383-399 | A found position passes the bound test, and no lower position from the start does. |
| ThresholdStep.NextIsLater | IsoSpec++/isoSpec++.h:357-403 | Every step that does not end the search moves the counter strictly forward in odometer order. |
| ThresholdStep.SingleElementEnds | IsoSpec++/isoSpec++.h:383 | With dimNumber = 1 the carry loop does not run, so the search ends right after the first fast-path failure. |
| ThresholdStep.SkippedAreBelowCutoff | IsoSpec++/isoSpec++.h:364-399 | Pruning is sound: any configuration strictly between the old and new counter, or after the old counter once the search ends, is below the cutoff. This assumes sorted marginals and a bound maxConfsLPSum. |
| ThresholdStep.NextReachesCutoff | IsoSpec++/isoSpec++.h:364-399 | With maxConfsLPSum exactly the log-probability of the modes below each position, every counter a step produces names a configuration and reaches the cutoff. |
| Signatures.WriteParts | IsoSpec++/isoSpec++.h:271-275 | The memcpy loop writes the element vectors back to back from the start of the buffer and leaves the rest alone. |
| Signatures.Write | IsoSpec++/isoSpec++.h:273 | memcpy writes v at the offset and changes nothing else. |
| Signatures.FlattenAt | IsoSpec++/isoSpec++.h:271-275 | Element j's vector starts at the sum of the isotope numbers before j. |
| Signatures.FlattenLength | IsoSpec++/isoSpec++.h:271-275 | A signature is as long as all its parts together. |
| OrderedGenerators.OrderedGenerator.GetConfSignature | IsoSpec++/isoSpec++.h:227-242 | Writes the flattened vectors with element ccount read at index c[ccount]-1 when ccount >= 0, and leaves topConf's index vector as it was. |
| OrderedGenerators.ReadIndices | IsoSpec++/isoSpec++.h:231-232 | Only position ccount is read one index back, and only when ccount >= 0. |
| OrderedGenerators.SignatureLength | IsoSpec++/isoSpec++.h:234-238 | An ordered signature also holds allDim ints. |
| Misc.LookupSum | IsoSpec++/misc.h:27-34 | A sum of looked-up entries that are all at most 0 (log-probabilities) is at most 0; entries that are all at least 0 give a sum of at least 0. |
| Misc.CombinedSum | IsoSpec++/misc.h:27-34 | combinedSum returns Σ_{i<d} V[i][conf[i]], which is 0 when d = 0. |
| Misc.LookupSumUpdate | IsoSpec++/misc.h:27-34 | Changing one index j < d changes the sum by the difference of its two table entries; an index at or above d does not change it. |
| Misc.DotMass | IsoSpec++/misc.h:71-81 | With non-negative counts and non-negative isotope masses, the mass of a configuration is non-negative. |
| Misc.Mass | IsoSpec++/misc.h:71-81 | mass returns Σ_{i<d} conf[i]*m[i]. |
| Misc.MassAdditive | IsoSpec++/misc.h:71-81 | mass(a+b) = mass(a) + mass(b), elementwise, over the same d and m. |
| Misc.MassOfZero | IsoSpec++/misc.h:71-81 | The all-zero configuration has mass 0. |
| Misc.TupleCmp | IsoSpec++/misc.h:84-89 | On (double, double, int*) triples compared on their second component, t1 is ordered before t2 only when their second components differ; in particular no triple is ordered before itself. |
| Misc.TupleCmpStrict | IsoSpec++/misc.h:84-89 | tupleCmp, which holds iff get<1>(t1) > get<1>(t2), is irreflexive, asymmetric and transitive. |
| Misc.TupleCmpIgnoresRest | IsoSpec++/misc.h:84-89 | Two triples are incomparable either way exactly when their second components are equal, whatever their other parts. So incomparability is an equivalence, and tupleCmp is a strict weak order. |
| Misc.ArrayCopy | IsoSpec++/misc.h:115-120 | Returns a fresh array whose elements are A[0..size), and leaves A unchanged. |
| Formulas.IsoParamsFromFormula | IsoSpecPy/IsoSpecPy/__init__.py:32-46 | Succeeds exactly when every matched symbol is in the table; otherwise raises ValueError("Invalid formula"). On success, the counts and tables run parallel to the matches, in order. A count is int(digits), or 1 when there are no digits. |
| Formulas.Tokens | IsoSpecPy/IsoSpecPy/__init__.py:30-37 | findall returns at most one match per character of the formula. Every match is an upper-case letter, optionally one lower-case letter, then digits. |
| Formulas.Count | IsoSpecPy/IsoSpecPy/__init__.py:39 | A count is 0 exactly when its digit group is non-empty and all zeros. A non-empty digit group of n digits gives a count below 10^n. |
| Formulas.RenderTokens | IsoSpecPy/IsoSpecPy/__init__.py:30-39 | Reading a formula written from matches gives back exactly those matches, in order of appearance. |
| Formulas.WaterTokens | IsoSpecPy/IsoSpecPy/__init__.py:37-39 | "H2O" reads as H with count 2, then O with count 1. |
| PythonText.DecimalValue | IsoSpecPy/IsoSpecPy/__init__.py:39 | int() of n decimal digits is below 10^n, and at least 10^(n-1) when the first digit is not 0. It is 0 exactly when every digit is 0. |
| PythonText.DecimalRoundTrip | IsoSpecPy/IsoSpecPy/__init__.py:39 | int() of the decimal digits of n is n. |
| PyIso.IsoInit | IsoSpecPy/IsoSpecPy/__init__.py:60-79 | Without a formula, all three tables must be truthy or an Exception is raised. A formula that fails to parse raises ValueError. Explicit arguments override the formula's values. isotopeNumbers[j] = len(isotopeMasses[j]) = len(isotopeProbabilities[j]) and dimNumber = len(isotopeNumbers). No other error is raised. Construction succeeds exactly when those checks pass and the chosen mass and probability tables have the same lengths; AssertionError is raised exactly when the checks pass and the lengths differ. |
| PyIso.MismatchFails | IsoSpecPy/IsoSpecPy/__init__.py:76-77 | Mass and probability tables whose lengths differ raise AssertionError. |
| PyIso.EmptyFormula | IsoSpecPy/IsoSpecPy/__init__.py:60-79 | The empty formula has no matches, so `Iso("")` constructs with no elements: dimNumber 0 and empty tables. |
| PyIso.AgreementSucceeds | IsoSpecPy/IsoSpecPy/__init__.py:60-79 | Explicit tables whose lengths agree, with a formula that parses or none, construct successfully: the converse of `MismatchFails`. |
| PyIso.Offsets | IsoSpecPy/IsoSpecPy/__init__.py:86-94 | offsets[j] is the run of isotopeNumbers[j] consecutive positions that starts after the isotopes of elements 0..j-1. |
| PyIso.BuildOffsets | IsoSpecPy/IsoSpecPy/__init__.py:86-94 | The nested loops build offsets[j] = S_j .. S_j+n_j-1, where S_j = Σ_{k<j} n_k. |
| PyIso.OffsetsCover | IsoSpecPy/IsoSpecPy/__init__.py:86-94 | Concatenated, the offsets are exactly 0..allDim-1, with no gaps and no repeats. |
| PyIso.ParseConf | IsoSpecPy/IsoSpecPy/__init__.py:113-114 | parse_conf gives one tuple per element, as long as that element's offsets; entry k of tuple j is the buffer value at offsets[j][k] + starting_with. |
| PyIso.ParseOfFlatten | IsoSpecPy/IsoSpecPy/__init__.py:113-114 | parse_conf of a buffer holding a flattened signature at s gives back the per-element vectors. |
| PyIso.FlattenOfParse | IsoSpecPy/IsoSpecPy/__init__.py:113-114 | Flattening what parse_conf read gives back c[s..s+allDim]. |
| PyIso.GetConf | IsoSpecPy/IsoSpecPy/__init__.py:144-145 | _get_conf(idx) reads its tuples from the idx-th block of allDim ints: entry k of tuple j is rawConfs[allDim*idx + offsets[j][k]]. |
| PyIso.GetConfRoundTrip | IsoSpecPy/IsoSpecPy/__init__.py:139-145 | _get_conf(idx), which reads from allDim*idx, gives back the vectors written for configuration idx. |
| PyIso.IsoGenerator.Iter | IsoSpecPy/IsoSpecPy/__init__.py:179-184 | The first iteration clears firstuse. Any later one raises NotImplementedError with the source's message. |
| PyIso.IterTwice | IsoSpecPy/IsoSpecPy/__init__.py:179-184 | On a new generator, the first iteration proceeds and the second raises. |
| PyIso.LayeredInit | IsoSpecPy/IsoSpecPy/__init__.py:217-219 | delta >= 0 raises AssertionError before any Iso set-up, whatever the other arguments. Otherwise construction proceeds as Iso.__init__. |
| LegacyInterface.SymbolRuns | IsoSpecPy/IsoSpecPy/Interface_test2.py:9-14 | The symbols are non-empty runs of non-digit characters. That they are exactly the formula's maximal runs, in order, is `RunsRoundTrip`. |
| LegacyInterface.DigitRuns | IsoSpecPy/IsoSpecPy/Interface_test2.py:10-15 | The counts come from non-empty runs of digits. That they are exactly the formula's maximal runs, in order, is `RunsRoundTrip`. |
| LegacyInterface.RunsRoundTrip | IsoSpecPy/IsoSpecPy/Interface_test2.py:14-15 | Writing the symbol runs and digit runs alternately, starting with the kind of the formula's first character, gives back the formula. Nothing is lost or invented, and since neighbouring runs are of different kinds, every run is maximal. |
| LegacyInterface.RunBalance | IsoSpecPy/IsoSpecPy/Interface_test2.py:14-17 | The numbers of symbol and digit runs differ by the kinds of the first and last characters. |
| LegacyInterface.IsoParamsFromFormula | IsoSpecPy/IsoSpecPy/Interface_test2.py:12-27 | The only error raised is ValueError("Invalid formula"). On success, dimNumber = len(atomCounts) = number of runs. The counts are int() of the digit runs. Masses, probabilities and isotopeNumbers[i] = len(probs of symbols[i]) are aligned with the symbols. |
| LegacyInterface.Accepts | IsoSpecPy/IsoSpecPy/Interface_test2.py:17-25 | A formula is accepted exactly when its runs pair up (it is empty, or starts and ends with characters of different kinds) and every symbol run is exactly a table key. |
| LegacyInterface.WaterRejected | IsoSpecPy/IsoSpecPy/Interface_test2.py:17-18 | "H2O" is rejected, whatever the table. |
| LegacyInterface.WaterAccepted | IsoSpecPy/IsoSpecPy/Interface_test2.py:177 | "H2O1" is accepted with counts [2, 1] when H and O are in the table. |
| LegacyInterface.SetupReads | IsoSpecPy/IsoSpecPy/Interface_test2.py:63-66 | The foreign set-up proceeds exactly when all five attributes exist. Otherwise an AttributeError names the first missing one. |
| LegacyInterface.LegacyIso.Init | IsoSpecPy/IsoSpecPy/Interface_test2.py:41-60 | A formula that fails to parse raises ValueError and assigns nothing: all five attributes stay missing and getConfs keeps its value. Otherwise each attribute is the explicit argument if given, else the formula's value, else missing. Each override is independent of the others. |
| LegacyInterface.InitFromFormula | IsoSpecPy/IsoSpecPy/Interface_test2.py:41-66 | With a formula that parses and no other arguments, every attribute is present. |

## Left out

- The foreign-function layer is not modelled, because it calls into code this model cannot see. This covers:
  - `isoFFI.clib` set-up and delete calls, the tabulators, and the `__del__` methods;
  - the generators' yields of masses and probabilities.
  `IsoOrderedGenerator.__del__` frees its handle with `deleteIsoLayeredGenerator`, in both Python files.
- The combinatorial engine is only declared in these files, so it is not modelled:
  - the marginal classes;
  - `IsoOrderedGenerator::advanceToNextConfiguration` and its priority queue;
  - `IsoLayeredGenerator`;
  - the set-up of `maxConfsLPSum`.
  The marginal tables and `maxConfsLPSum` are inputs.
- `IsoThresholdGeneratorMT` is left out because it is concurrent.
- `unnormalized_logProb` is left out because it depends on floating-point rounding modes and on `minuslogFactorial`, which is in an unseen file.
- IEEE rounding of the sums and products is not modelled; values are exact reals.
- `PrecalculatedMarginal` is not part of this model. Its tables are inputs, with three assumptions:
  - the entry one past the last configuration reads as log-probability minus infinity, mass 0 and probability 0 (`Marginals.LProbAt`, `MassAt`, `EProbAt`);
  - every table has at least one configuration;
  - `maxConfsLPSum` bounds the tables as `SkippedAreBelowCutoff` and `NextReachesCutoff` require.
  After a fast-path step onto marginal 0's last entry, `Mass()` and `EProb()` read the assumed terminator values at counter[0]+1.
- ThresholdGenerators.ThresholdGenerator.constructor: requires at least one element and a non-empty table for each. The source's generator reads marginal 0 unconditionally (isoSpec++.h:337-339) and its first entry on the first advance (isoSpec++.h:360). The Python layer accepts a formula with no elements and passes `dimNumber` 0 on (`PyIso.EmptyFormula`); what the unseen C++ does with it is not modelled.
- PyIso.BuildOffsets, PyIso.IsoInit: the offsets are always built. The source builds `self.offsets` only when `get_confs` is true (`__init__.py:86`). Without it, `parse_conf` raises AttributeError; the model does not represent that error.
- PyIso.ParseConf, PyIso.GetConf: require every offset to index the buffer. The IndexError that Python raises for a read out of range is not modelled. In the source the buffer comes from the foreign layer, which this model does not cover.
- The base `IsoThresholdGenerator` constructor and `terminate_search` are not visible.
  - The model constructor starts at counter [-1, 0, ..., 0] with sums consistent with it.
  - `terminate_search` only sets a `terminated` flag.
  - The advance methods require that the search has not been terminated; callers loop `while (advanceToNextConfiguration())`.
- ThresholdGenerators.ThresholdGenerator.Mass, ThresholdGenerators.ThresholdGenerator.EProb, ThresholdGenerators.ThresholdGenerator.AdvanceFast: after a passing fast-path step these do not promise the mass or probability of the current configuration, because the source does not deliver it.
  - The source moves `mass_ptr` and `exp_ptr` on before reading them (isoSpec++.h:362-367), while it reads `lProbs_ptr` before moving it.
  - Marginal 0 therefore contributes entry counter[0]+1 to those two values. The model states this literally.
  - What `get_masses_ptr` and `get_eProbs_ptr` point at is not visible, so this is not claimed as a defect.
- The advance step of the Fast generator is one C++ function. The model splits it into `AdvanceFast`, `Carry`, `FindCarry` and `Settle`, and the Cntr step into `AdvanceCntr` and `CarryCntr`. The statements and their order are the source's.
- Fast and Cntr override `get_conf_signature` with an empty body (isoSpec++.h:331, 426) and Cntr makes `mass()` and `eprob()` private and undefined (isoSpec++.h:424-425).
  - `ConfSignature` models the base threshold version (269-276).
  - `Mass`/`EProb` require a non-Cntr generator.
- The raw memory helpers are left out because the model works on indices and sequences, not bytes. These are `getConf`, `getLProb`, `dealloc_table`, the LIKELY/INLINE macros and the padding.
- Printing helpers and demo drivers (misc.h:91-109, Interface_test2.py:177-178) are left out because they only produce output.
- `CompatIsoWrapper` and `ConfsPassthrough` are left out because they are compatibility glue around the foreign layer.
- The periodic table is one map from symbol to (masses, probabilities). The source uses two dictionaries, `symbol_to_masses` and `symbol_to_probs`, assumed to have the same keys. Both parsers raise the same ValueError whichever of the two lookups fails.
- `cnt is not ''` (an identity test) in `__init__.py` is modelled as a test for the empty string.
- `IsoGenerator.__iter__` is a Python generator, so its body starts only when iteration starts. `Iter` models that moment.
- IsoSpecR's generated glue and the C++ test drivers are left out because they contain no logic of the core.
