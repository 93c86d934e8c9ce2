# mctopp in Dafny

mctopp solves a team orienteering problem with time windows and mandatory visit
patterns. Given a shared budget, a number of tours bounded by one common time window,
and a catalogue of points of interest (POIs), it picks and orders visits. Each POI has a
score, a cost, a duration, opening hours and admissible types. Every tour must realise
its pattern: an ordered list of required types. A simulated-annealing driver searches
the space through a tour object ("Solution") that maintains the constraints. Node.js
scripts around the solver reshape benchmark instances, run parameter sweeps, and sort
and export the results.

This project models the parts of that system whose logic is visible in the source, one
Dafny module per source file:

- `Validator` (validator.dfy): the stand-alone solution checker. It covers the budget,
  the ordered pattern (the greedy scan is proved equal to "the pattern is a subsequence
  of the tour's types"), the time windows and the per-type caps. Dictionary misses and
  list overruns are an explicit `Thrown` outcome.
- `ArrayExtension` (array_extension.dfy): the recursive `Permutations` and the
  prefix-collecting `AllCombinations` loop with its de-duplication rule.
- `PivotKey` (pivot_key.dfy): the `type-tour-pos` pivot key and how the type is read back.
- `FileParser` (file_parser.dfy): the instance reader. It dispatches on the line number
  (header, caps, pattern lengths, patterns, POIs) and parses each line's tokens, with
  32-bit `int.Parse`, decimal `float.Parse` and the type-flag lookup.
- `Annealing` and `AnnealingMoves` (annealing.dfy, annealing_moves.dfy): the
  bookkeeping of the annealing driver. This is the type policy, the largest-space
  finder, first-fit placement, the pool updates, the skip stride, one move of the main
  loop with best-so-far tracking, one pass with the perturbation after it, and the three perturbation moves with their pivot flags.
  The Solution object is an `Oracle` of functions over an abstract state, so every fact
  holds whatever `Insert`, `Remove` and `Swap` do. Random draws are parameters.
- `InstancePreprocessor` (instance_preprocessor.dfy): the POI line reshaper, the
  in-place rewrite of a file's lines, and the `-out` output name.
- `RunExperiment` (run_experiment.dfy): parameter-file parsing, the cartesian product
  filtered by the conditions, command and key construction, reading a run's output,
  aggregating ten runs, and the batches of twenty with their log lines.
- `ExperimentResults`, `ResultsOrder` and `ResultsOutput` (experiment_results.dfy,
  results_order.dfy, results_output.dfy): the two result scripts. They parse log lines
  into records, sort them in place with the multi-key descending comparator on an
  `array`, and write the SQL statements in chunks of a hundred and the CSV texts.
- `ScriptPaths` (script_paths.dfy): the two variants of command-line path normalisation.
- `Text`, `JsText` and `Wrappers` (text.dfy, js_text.dfy, wrappers.dfy): splitting,
  joining, trimming, decimal rendering, the JavaScript built-ins (`filter`, `replace`,
  `parseInt`), and `Option`/`Result`.

Loops in the source are methods with loop invariants, each proved against a
specification function. The properties of those functions are separate lemmas.

## Model

| member | source | states |
|---|---|---|
| Validator.IsValid | src/Models/Algorithm/Validator.cs:8-20 | runs budget, pattern, time and cap checks in that order; valid exactly when all four are valid, otherwise the outcome (false or a thrown KeyNotFound) of the first check that is not valid |
| Validator.IsBudgetValid | src/Models/Algorithm/Validator.cs:22-34 | throws KeyNotFound exactly when a visited id has no cost; otherwise valid exactly when the summed cost of all visits is within the cost budget |
| Validator.TotalCostAppend | src/Models/Algorithm/Validator.cs:25-31 | the summed cost of two lists of tours placed end to end is the sum of their costs |
| Validator.TotalCostSwapTours | src/Models/Algorithm/Validator.cs:25-31 | exchanging two tours leaves the summed cost unchanged |
| Validator.TypeSeq | src/Models/Algorithm/Validator.cs:46-48 | one type per visited POI, in tour order, each the one the type table gives for that POI |
| Validator.Scan | src/Models/Algorithm/Validator.cs:43-56 | the greedy pattern scan of one tour never moves the matched count backwards nor past the pattern's length |
| Validator.ScanTotal | src/Models/Algorithm/Validator.cs:46-48 | on a tour whose every id has a type the scan never throws |
| Validator.ScanSound | src/Models/Algorithm/Validator.cs:43-58 | a scan that matches the whole pattern yields strictly increasing positions of the tour's types spelling the pattern |
| Validator.ScanComplete | src/Models/Algorithm/Validator.cs:43-58 | any such embedding of the pattern in the tour's types makes the greedy scan match the whole pattern |
| Validator.GreedyIsSubsequence | src/Models/Algorithm/Validator.cs:43-58 | the greedy scan succeeds exactly when the pattern is a subsequence of the tour's types |
| Validator.IsPatternValid | src/Models/Algorithm/Validator.cs:36-63 | the loop returns the outcome of the tour-by-tour pattern check, including the thrown errors for a missing pattern, an empty pattern or an untyped id |
| Validator.PatternValidIff | src/Models/Algorithm/Validator.cs:36-63 | with every pattern present and every id typed, valid exactly when every tour's pattern is non-empty and a subsequence of its types |
| Validator.PatternValidNeedsPatterns | src/Models/Algorithm/Validator.cs:41-44 | a valid outcome implies every tour has a non-empty pattern |
| Validator.IsTimeValid | src/Models/Algorithm/Validator.cs:65-91 | the loop returns the outcome of the tour-by-tour time check, including thrown errors for missing tables or times |
| Validator.TimeTourValidIff | src/Models/Algorithm/Validator.cs:71-87 | with complete tables, one tour is valid exactly when every visit lies in its working-hours window and the summed visit times are within the time budget, and is otherwise invalid |
| Validator.TimeValidIff | src/Models/Algorithm/Validator.cs:65-91 | with complete tables, the time check is valid exactly when every tour passes, and never throws |
| Validator.IsMaxPoisValid | src/Models/Algorithm/Validator.cs:93-114 | the loop returns the outcome of the per-tour cap check as written (counters indexed by the visited id) |
| Validator.CountVisitsById | src/Models/Algorithm/Validator.cs:98-103 | throws exactly when a visited id is not a capped type; otherwise each counter holds how often its key occurs as an id in the tour |
| Validator.CountersStep | src/Models/Algorithm/Validator.cs:101-102 | one more visit raises exactly the counter of the visited id by one |
| Validator.AnyCapExceeded | src/Models/Algorithm/Validator.cs:106-110 | true exactly when some counter is above its cap |
| Validator.MaxPoisCountsIdsNotTypes | src/Models/Algorithm/Validator.cs:102-103 | a tour of two ids of capped type 1 throws as written, while counting by type finds the cap exceeded |
| Validator.MaxPoisWrongCounter | src/Models/Algorithm/Validator.cs:102-103 | a visit of id 1 of type 2 breaks the cap of type 1 as written, while counting by type finds it valid |
| Validator.IsMaxPoisOfTypeValid | src/Models/Algorithm/Validator.cs:93-114 | the corrected cap check, counting visits by their type, returns the tour-by-tour outcome |
| Validator.CountVisitsByType | src/Models/Algorithm/Validator.cs:98-103 | corrected counting: throws exactly when a visit has no type or an uncapped type; otherwise each counter holds the number of visits of its type |
| Validator.MaxTypesValidIff | src/Models/Algorithm/Validator.cs:93-114 | with every visit typed and capped, the corrected check never throws and is valid exactly when no tour has more visits of a type than its cap |
| ArrayExtension.ExceptFrom | src/Helpers/ArrayExtension.cs:14 | LINQ `Except`: distinct values of the input outside the excluded set, and shorter when one of them was excluded |
| ArrayExtension.Except | src/Helpers/ArrayExtension.cs:14 | excluding a value gives each of the other values exactly once, never the value itself, and a shorter array when the value occurred |
| ArrayExtension.Prefixed | src/Helpers/ArrayExtension.cs:14-15 | the result selector puts `v` in front of each permutation of the rest, one for one |
| ArrayExtension.PermutationsOfEmpty | src/Helpers/ArrayExtension.cs:11-15 | an empty array has no permutations: the recursion never reaches length one |
| ArrayExtension.ExceptFromDistinct | src/Helpers/ArrayExtension.cs:14 | on distinct values `Except` keeps the order of the values outside the set |
| ArrayExtension.ExceptDistinct | src/Helpers/ArrayExtension.cs:14 | on distinct values, excluding element `i` removes exactly that position, so one fewer element |
| ArrayExtension.PermutationsRearrange | src/Helpers/ArrayExtension.cs:9-16 | every permutation of distinct values is a rearrangement of them (same multiset, same length) |
| ArrayExtension.ExpandRearranges | src/Helpers/ArrayExtension.cs:14-15 | every ordering the SelectMany builds from position i on is a rearrangement of the distinct values |
| ArrayExtension.PermutationsCount | src/Helpers/ArrayExtension.cs:9-16 | distinct values have exactly n! permutations |
| ArrayExtension.ExpandCount | src/Helpers/ArrayExtension.cs:14-15 | the SelectMany from position i on builds (n - i) times (n - 1)! orderings of n distinct values |
| ArrayExtension.PermutationsGrouped | src/Helpers/ArrayExtension.cs:14-15 | the permutations come in blocks of (n-1)!, block `i` starting with value `i` followed by the permutations of the rest in order |
| ArrayExtension.ExpandAt | src/Helpers/ArrayExtension.cs:14-15 | among the orderings the SelectMany builds from position j, ordering a·(n - 1)! + k is value j + a followed by ordering k of the other values |
| ArrayExtension.RepeatedElementLosesOrderings | src/Helpers/ArrayExtension.cs:14 | an array holding the value 7 twice has no orderings at all, because excluding 7 drops both copies |
| ArrayExtension.LastOfLength | src/Helpers/ArrayExtension.cs:30-42 | the entry of the collection the inner loop decides on: the last one of the list's length, when there is one |
| ArrayExtension.CountSame | src/Helpers/ArrayExtension.cs:34-40 | counts equal positions; all positions agree exactly when the two arrays are equal |
| ArrayExtension.LastSameLengthEqual | src/Helpers/ArrayExtension.cs:30-42 | `skip` holds exactly when the last earlier entry of the same length equals the prefix built so far |
| ArrayExtension.AllCombinations | src/Helpers/ArrayExtension.cs:18-49 | the collection built from every prefix of every permutation; every entry is a non-empty prefix of some permutation |
| ArrayExtension.CollectAppendOnly | src/Helpers/ArrayExtension.cs:22-47 | processing more permutations only appends to the collection |
| PivotKey.UniquePivot | src/Helpers/Util.cs:3-6 | the key is the type, a dash, the tour, a dash and the position; it starts with the type followed by a dash |
| PivotKey.ExtractPivot | src/Helpers/Util.cs:8-11 | the first dash-separated field: a dash-free prefix of the key, followed by a dash unless it is the whole key |
| PivotKey.ExtractPivotNoDash | src/Helpers/Util.cs:8-11 | a key without a dash is its own first field |
| PivotKey.PivotRoundTrip | src/Helpers/Util.cs:3-11 | extracting from a built key gives back a dash-free type |
| PivotKey.PivotRoundTripDashedType | src/Helpers/Util.cs:3-11 | a type containing a dash comes back cut at its first dash, strictly shorter |
| FileParser.Tokens | src/Helpers/Parsers/FileParser.cs:60 | `raw.Trim().Split(' ')` yields at least one token |
| FileParser.ParseInt32 | src/Helpers/Parsers/FileParser.cs:62-64 | `int.Parse`: a value within 32 bits, or a format or overflow exception |
| FileParser.ParseInt32RoundTrip | src/Helpers/Parsers/FileParser.cs:62-64 | the rendering of an integer parses back to it when it fits 32 bits and overflows otherwise |
| FileParser.DecimalValue | src/Helpers/Parsers/FileParser.cs:93 | plain decimal notation has a non-negative value; anything else is a format exception |
| FileParser.ParseFloat | src/Helpers/Parsers/FileParser.cs:93 | `float.Parse` fails only with a format exception |
| FileParser.ParseFloatOfInt | src/Helpers/Parsers/FileParser.cs:93 | the rendering of an integer parses as a float to that integer |
| FileParser.ParseAll | src/Helpers/Parsers/FileParser.cs:70-72 | `Select(parse).ToList()` gives one value per token on success |
| FileParser.ParseAllMeaning | src/Helpers/Parsers/FileParser.cs:70-72 | on success value `k` is token `k`'s parse; on failure the exception is that of the first failing token |
| FileParser.ParseAllSucceeds | src/Helpers/Parsers/FileParser.cs:70-72 | when every token parses, the list parses |
| FileParser.ParseIntList | src/Helpers/Parsers/FileParser.cs:68-80 | a caps or lengths line parses to one 32-bit integer per token, in order, or fails with the exception of one of its tokens |
| FileParser.Take | src/Helpers/Parsers/FileParser.cs:85 | LINQ `Take(n)`: a prefix of length n clamped to 0 and the list's length |
| FileParser.Skip | src/Helpers/Parsers/FileParser.cs:95 | LINQ `Skip(n)`: the elements from position n on |
| FileParser.FindOne | src/Helpers/Parsers/FileParser.cs:95 | `FindIndex(x => x == 1)`: -1 exactly when no element is 1, otherwise the first position holding 1 |
| FileParser.Truncate | src/Helpers/Parsers/FileParser.cs:99 | the `(int)` cast rounds toward zero |
| FileParser.ParseTourCount | src/Helpers/Parsers/FileParser.cs:58-66 | succeeds exactly when there are at least three tokens and the first three parse as 32-bit integers, and then holds them in order |
| FileParser.ParsePattern | src/Helpers/Parsers/FileParser.cs:82-88 | a pattern line parses to one 32-bit integer per token among the first `length`, in order, or fails with the exception of one of those tokens |
| FileParser.ParsePatternIgnoresTail | src/Helpers/Parsers/FileParser.cs:82-88 | only the first `length` tokens must parse; the pattern then has as many entries as tokens taken |
| FileParser.PoiOf | src/Helpers/Parsers/FileParser.cs:95-108 | needs seven values (else out of range); the id is the truncated first value, the cost the eighth value or 0, and the type the position of the first 1 after the eighth value, or -1 |
| FileParser.ParsePoi | src/Helpers/Parsers/FileParser.cs:90-109 | a token that is not a float fails the line with a format exception; otherwise the POI is built from the values |
| FileParser.ReadLine | src/Helpers/Parsers/FileParser.cs:25-51 | the line-number dispatch: header on line 0, caps on line 1, lengths on line 2, patterns up to line 2 + TourCount, POIs after, including the exceptions of each branch |
| FileParser.ParseInput | src/Helpers/Parsers/FileParser.cs:16-55 | the loop over the lines gives the outcome of reading them one after the other |
| FileParser.ErrorEndsRead | src/Helpers/Parsers/FileParser.cs:23-52 | once a line raises, later lines do not change the outcome |
| FileParser.ParsedDescribes | src/Helpers/Parsers/FileParser.cs:23-52 | a successful read holds the header's counts (non-negative), the caps of line 1, the lengths of line 2, pattern i parsed from line 3+i with the i-th length and one POI per later line, in order |
| FileParser.PatternStep | src/Helpers/Parsers/FileParser.cs:44-47 | a pattern line appends its pattern and keeps the description of the earlier lines |
| FileParser.PoiStep | src/Helpers/Parsers/FileParser.cs:48-51 | a POI line appends its POI and keeps the description of the earlier lines |
| FileParser.NegativeTourCountFails | src/Helpers/Parsers/FileParser.cs:33 | a negative tour count makes the list capacity throw, whatever follows |
| Annealing.LeastUsed | src/Models/Algorithm/SimulatedAnnealingAlgorithm.cs:303-312 | the type chosen among the first n types has the smallest count among them, and it is the earliest type with that count (every earlier type has a strictly larger count) |
| Annealing.PoiTypeSelectionPolicy | src/Models/Algorithm/SimulatedAnnealingAlgorithm.cs:303-312 | the loop over the POI's types returns the least-used type, ties going to the earliest |
| Annealing.FindPoiWithHighestSpace | src/Models/Algorithm/SimulatedAnnealingAlgorithm.cs:277-300 | returns an existing filled space with the largest size over all tours, and the first such in tour-then-position order (every earlier space is strictly smaller) |
| Annealing.InsertAnyType | src/Models/Algorithm/SimulatedAnnealingAlgorithm.cs:261-265 | trying a POI's types one after another at one space, each attempt starting from the state the previous one left, gives the first-fit outcome |
| Annealing.InsertAnySpace | src/Models/Algorithm/SimulatedAnnealingAlgorithm.cs:259-267 | trying every space of one tour, each with every type, stops at the first successful insert |
| Annealing.PlacePoi | src/Models/Algorithm/SimulatedAnnealingAlgorithm.cs:256-269 | the three nested loops over tours, spaces and types compute the first-fit placement over the empty spaces read once at the start |
| Annealing.PlaceNeedsAType | src/Models/Algorithm/SimulatedAnnealingAlgorithm.cs:261-265 | a POI without types is never placed and leaves the solution untouched |
| Annealing.TryToursWithoutTypes | src/Models/Algorithm/SimulatedAnnealingAlgorithm.cs:256-269 | from any tour on, a POI without types is placed nowhere and nothing changes |
| Annealing.TrySpacesWithoutTypes | src/Models/Algorithm/SimulatedAnnealingAlgorithm.cs:259-267 | from any space on, a POI without types is placed nowhere and nothing changes |
| Annealing.TryToursFirstFit | src/Models/Algorithm/SimulatedAnnealingAlgorithm.cs:256-269 | when every insert succeeds, the search from tour j succeeds exactly when the POI has a type and some later tour has an empty space |
| Annealing.PlaceFirstFit | src/Models/Algorithm/SimulatedAnnealingAlgorithm.cs:256-269 | when every insert succeeds, placement succeeds exactly when the POI has a type and some tour has an empty space |
| Annealing.FillUpTo | src/Models/Algorithm/SimulatedAnnealingAlgorithm.cs:248-275 | the recorded indices of placed pool entries are strictly increasing and all below the number of entries looked at |
| Annealing.FillEmptySpaces | src/Models/Algorithm/SimulatedAnnealingAlgorithm.cs:248-275 | the loop over the pool returns the indices it placed and the resulting state, as FillUpTo describes them |
| Annealing.FillMembership | src/Models/Algorithm/SimulatedAnnealingAlgorithm.cs:251-271 | index i is recorded exactly when placing entry i succeeds on the state left by the entries before it |
| Annealing.KeepFromPrefix | src/Models/Algorithm/SimulatedAnnealingAlgorithm.cs:62-63 | a stretch of the pool holding no dropped index is kept whole and in order |
| Annealing.KeepFromAgree | src/Models/Algorithm/SimulatedAnnealingAlgorithm.cs:62-63 | two drop lists holding the same indices keep the same entries |
| Annealing.RemoveBelow | src/Models/Algorithm/SimulatedAnnealingAlgorithm.cs:62-63 | removing index x after all larger indices were dropped equals dropping x together with them, so removing from the back never shifts a pending index |
| Annealing.KeepOutNone | src/Models/Algorithm/SimulatedAnnealingAlgorithm.cs:62-63 | dropping no index keeps the pool as it is |
| Annealing.KeepOutLength | src/Models/Algorithm/SimulatedAnnealingAlgorithm.cs:62-63 | dropping distinct in-range indices shortens the pool by exactly their number |
| Annealing.RemoveInserted | src/Models/Algorithm/SimulatedAnnealingAlgorithm.cs:62-63 | removing the recorded indices from the highest down leaves exactly the pool entries whose index was not recorded, in their order |
| Annealing.StrideIndices | src/Models/Algorithm/SimulatedAnnealingAlgorithm.cs:188-193 | the stride loop starting at -skip and stepping by the seed reads i+skip while in range and otherwise the last index |
| Annealing.StrideReadsBeforeStart | src/Models/Algorithm/SimulatedAnnealingAlgorithm.cs:191-193 | with an empty list and a non-zero skip the loop body runs once and reads index -1 |
| Annealing.StrideFromShape | src/Models/Algorithm/SimulatedAnnealingAlgorithm.cs:191-193 | over a non-empty list, from an aligned counter, every index read is in range, a multiple of the seed or the last index, and the indices strictly increase |
| Annealing.GuardedStrideInRange | src/Models/Algorithm/SimulatedAnnealingAlgorithm.cs:188-193 | the stride run only over a non-empty list reads only in-range indices, each a multiple of the seed or the last index, never the same one twice |
| Annealing.Step | src/Models/Algorithm/SimulatedAnnealingAlgorithm.cs:43-73 | one move leaves the current solution or replaces it by the neighbour built; either the best and the stall count restart together at the current solution or the best stays and the stall count grows by one; the pool changes only when a neighbour was built |
| Annealing.Move | src/Models/Algorithm/SimulatedAnnealingAlgorithm.cs:43-79 | one pass of the inner loop of Solve (type choice, swap, validation, top-up, acceptance, pool update, best and stall count) computes Step, including whether best and current now name the same object |
| Annealing.StepKeepsBest | src/Models/Algorithm/SimulatedAnnealingAlgorithm.cs:58-73 | within one move either the best solution is kept and the stall count grows by one, or the new current solution has a strictly higher score than the old best, becomes the best as the same object, and the stall count restarts at 0; a best that names the current object whenever it is shared still does after the move |
| Annealing.NewBestIsShared | src/Models/Algorithm/SimulatedAnnealingAlgorithm.cs:66-73 | a neighbour that beats both the current and the best solution becomes the best by reference, so best and current are then one object; a move without a neighbour leaves the sharing as it was |
| Annealing.PassLosesBest | src/Models/Algorithm/SimulatedAnnealingAlgorithm.cs:31-87 | as written: when best and current are one object and the stall limit is passed, the in-place perturbation of current also rewrites best, so a perturbation that scores lower makes the best score drop |
| Annealing.PassClonedKeepsBest | src/Models/Algorithm/SimulatedAnnealingAlgorithm.cs:31-87 | with the best kept as a copy, a whole pass (move and perturbation) either keeps the best solution or replaces it by one with a strictly higher score, and best and current are never one object |
| Annealing.ImprovingNeighbourAccepted | src/Models/Algorithm/SimulatedAnnealingAlgorithm.cs:52-64 | a valid neighbour with a higher score is always accepted: it becomes current, the swapped-out POI replaces the pool entry, the topped-up entries leave the pool and the pool shrinks by their number |
| Annealing.InvalidNeighbourRejected | src/Models/Algorithm/SimulatedAnnealingAlgorithm.cs:48-50 | when the swap or the validation fails only the stall count changes, by one |
| Annealing.StepKeepsBestAhead | src/Models/Algorithm/SimulatedAnnealingAlgorithm.cs:58-69 | if the best score is at least the current score before a pass, it still is after it |
| AnnealingMoves.BuildSlot | src/Models/Algorithm/SimulatedAnnealingAlgorithm.cs:228-240 | the built pivot list has the type key and one candidate per ranked POI, with the same ids in the same order |
| AnnealingMoves.BuildSlotOneSelected | src/Models/Algorithm/SimulatedAnnealingAlgorithm.cs:228-240 | exactly one candidate is flagged selected if and only if the selection index is a valid position |
| AnnealingMoves.FindSelected | src/Models/Algorithm/SimulatedAnnealingAlgorithm.cs:403 | returns the first selected candidate, or -1 exactly when none is selected |
| AnnealingMoves.ReselectMovesFlag | src/Models/Algorithm/SimulatedAnnealingAlgorithm.cs:438-439 | moving the flag keeps the candidates and their ids and leaves exactly the new candidate selected |
| AnnealingMoves.RerollSingleCandidate | src/Models/Algorithm/SimulatedAnnealingAlgorithm.cs:405-407 | with a single candidate, no sequence of draws ends the re-roll loop |
| AnnealingMoves.PickReplacementSound | src/Models/Algorithm/SimulatedAnnealingAlgorithm.cs:405-408 | a replacement, when picked, is another candidate of the same slot |
| AnnealingMoves.PickReplacementFinds | src/Models/Algorithm/SimulatedAnnealingAlgorithm.cs:405-407 | with two or more candidates, any draw landing off the selected candidate ends the loop with a pick |
| AnnealingMoves.IndexOf | src/Models/Algorithm/SimulatedAnnealingAlgorithm.cs:410 | returns the first position holding the id, or -1 exactly when the id is absent |
| AnnealingMoves.IndexInPool | src/Models/Algorithm/SimulatedAnnealingAlgorithm.cs:450 | returns the first pool position with the id, or -1 exactly when no entry has it |
| AnnealingMoves.Locate | src/Models/Algorithm/SimulatedAnnealingAlgorithm.cs:412-428 | finds the first occurrence of the id in tour-then-position order, or reports -1, -1 exactly when no tour holds it |
| AnnealingMoves.FlipKeepsShape | src/Models/Algorithm/SimulatedAnnealingAlgorithm.cs:438-439 | moving one slot's flag to another candidate keeps every key and id, keeps one selected candidate per slot, really changes the slots and leaves every other slot as it was |
| AnnealingMoves.SwapPivot | src/Models/Algorithm/SimulatedAnnealingAlgorithm.cs:400-460 | a tour without slots throws; a drawn slot with fewer than two candidates is left alone with the pool; otherwise the flag moves from the selected candidate to the re-rolled one and nothing else in the slots changes, and the pool gains the old pivot, losing the new pivot's entry first when that POI was in no tour; every slot keeps its keys, ids and single selection |
| AnnealingMoves.ExchangePivot | src/Models/Algorithm/SimulatedAnnealingAlgorithm.cs:409-457 | when no exchange takes place the pool is unchanged; a replacement taken from some tour leaves the pool with the old pivot added at the end; a replacement from the pool first loses its pool entry, which must exist, and the old pivot is added at the end; the only fault is the out-of-range index when the replacement is neither in a tour nor in the pool |
| AnnealingMoves.SelectedUnique | src/Models/Algorithm/SimulatedAnnealingAlgorithm.cs:403-404 | a candidate list whose selected candidate is at one index has no other selected index, so the pivot found is the one selected candidate |
| AnnealingMoves.SwapPivots | src/Models/Algorithm/SimulatedAnnealingAlgorithm.cs:393-464 | after all tours' tries every tour's slots keep their keys, ids and single selection |
| AnnealingMoves.SameShapeTrans | src/Models/Algorithm/SimulatedAnnealingAlgorithm.cs:395-463 | sharing keys and ids carries over a chain of tries |
| AnnealingMoves.OneSelectedHasPivot | src/Models/Algorithm/SimulatedAnnealingAlgorithm.cs:333 | a slot whose candidate j is its single selected one has a pivot, namely candidate j's id |
| AnnealingMoves.SlotPivotsMeaning | src/Models/Algorithm/SimulatedAnnealingAlgorithm.cs:331-334 | an id is collected from a tour's slots exactly when it is the pivot of one of them |
| AnnealingMoves.PivotIdsMeaning | src/Models/Algorithm/SimulatedAnnealingAlgorithm.cs:328-335 | an id is collected exactly when it is the selected pivot of some slot of some tour |
| AnnealingMoves.NotInMeaning | src/Models/Algorithm/SimulatedAnnealingAlgorithm.cs:337-348 | filtering a tour by the pivots holds exactly its ids that are not pivots, is no longer than the tour, and is the tour itself when it holds no pivot |
| AnnealingMoves.UnpinnedLists | src/Models/Algorithm/SimulatedAnnealingAlgorithm.cs:337-348 | one list per tour, each exactly that tour filtered by the pivots: its ids that are not pivots, in tour order |
| AnnealingMoves.RemoveRandom | src/Models/Algorithm/SimulatedAnnealingAlgorithm.cs:326-363 | at most twelve removals are requested, never of a pivot, and only of ids that were in some tour |
| AnnealingMoves.InsertRandom | src/Models/Algorithm/SimulatedAnnealingAlgorithm.cs:365-391 | an empty pool throws; a pool of at least six entries never throws; the pool left is a sub-multiset of the old one, at most six entries shorter |
| InstancePreprocessor.KeptOrigin | scripts/instance-preprocessor.js:15 | a 22-field line keeps 18 fields, the k-th being raw field 0-5, 9 or 11-21 in order, so fields 6-8 and 10 are the ones dropped |
| InstancePreprocessor.HasTypeFlag | scripts/instance-preprocessor.js:17-23 | the backward scan finds a flag exactly when one of the last ten kept fields is the string "1" |
| InstancePreprocessor.ParsePoi | scripts/instance-preprocessor.js:10-29 | the POI-line rewrite: split on spaces, length check, field selection, flag check, join |
| InstancePreprocessor.PoiLineAccepts | scripts/instance-preprocessor.js:10-29 | a POI line is accepted exactly when it has 22 space-separated fields and one of raw fields 12-21 is "1" |
| InstancePreprocessor.PoiLineLength | scripts/instance-preprocessor.js:13 | a line without 22 fields fails with the length error naming its first field and its field count |
| InstancePreprocessor.PoiLineFields | scripts/instance-preprocessor.js:15-28 | an accepted line, split again on spaces, is exactly the 18 kept fields |
| InstancePreprocessor.RewriteFromOk | scripts/instance-preprocessor.js:44-51 | the rewrite from line i succeeds exactly when every line from i does, and then line k of the result is line i+k rewritten |
| InstancePreprocessor.RewriteFromFirstError | scripts/instance-preprocessor.js:44-51 | the first line that fails decides the error of the whole file |
| InstancePreprocessor.RewriteFromStart | scripts/instance-preprocessor.js:44-51 | a successful rewrite keeps the number of lines, leaves the header, tour and pattern lines untouched and holds each POI line's rewrite in its place |
| InstancePreprocessor.RewriteMeaning | scripts/instance-preprocessor.js:43-51 | the same, with the tour count read by parseInt from the first field of line 0, so that lines past 3 plus that count are the POI lines |
| InstancePreprocessor.RewriteFromStartFails | scripts/instance-preprocessor.js:44-51 | the rewrite fails exactly when some POI line fails |
| InstancePreprocessor.RewriteFails | scripts/instance-preprocessor.js:43-51 | a non-empty file fails exactly when one of the lines past 3 plus its tour count is rejected; a NaN tour count rewrites nothing |
| InstancePreprocessor.RewriteAt | scripts/instance-preprocessor.js:48-50 | rewriting line i in place stores its rewrite or reports its error, and no other line changes |
| InstancePreprocessor.RewriteLines | scripts/instance-preprocessor.js:42-51 | the loop over the line array rewrites it in place into the file's rewrite, or reports that rewrite's error |
| InstancePreprocessor.RewriteFromSecond | scripts/instance-preprocessor.js:44-51 | the loop from line 1 on, with the tour count already read, leaves the rewrite of all lines or reports its first error |
| InstancePreprocessor.OutputNameInsertsOut | scripts/instance-preprocessor.js:55-58 | a name whose extension has no dot is written as the stem, "-out", a dot and the extension |
| InstancePreprocessor.TagBeforeLast | scripts/instance-preprocessor.js:55-58 | splitting on a separator, tagging the second-to-last piece and joining again puts the tag right before the last separator |
| InstancePreprocessor.OutputName | scripts/instance-preprocessor.js:55-58 | a name without a dot is its own output name, so the input file is overwritten |
| InstancePreprocessor.PreprocessFile | scripts/instance-preprocessor.js:42-60 | one file: its non-empty lines rewritten and joined with newlines, paired with the output name, or the first line error |
| InstancePreprocessor.PreprocessArg | scripts/instance-preprocessor.js:31-60 | one argument resolved against the working directory, read, and preprocessed |
| InstancePreprocessor.PreprocessAll | scripts/instance-preprocessor.js:31-64 | files are written in argument order; the run stops at the first file with a bad line, whose error it reports, and every file before it is written |
| RunExperiment.CommentFrom | scripts/run-experiment.js:20 | returns the first position at or after the start where a `#` followed by a matchable character begins, or the end of the text when there is none |
| RunExperiment.LineEnd | scripts/run-experiment.js:20 | the match of `.+` stops at the first line terminator and covers none |
| RunExperiment.StripCommentPlainLine | scripts/run-experiment.js:20 | on a single line, removing the comment keeps exactly the text in front of the first `#` that has a character after it |
| RunExperiment.StripCommentNoHash | scripts/run-experiment.js:20 | a line without `#` is kept whole |
| RunExperiment.TrimmedPieces | scripts/run-experiment.js:20 | one trimmed piece per piece of the split, in order |
| RunExperiment.DomainValuesMeaning | scripts/run-experiment.js:36-37 | the values of a `domain:` option are the comma-separated pieces of its text without brackets and white space, and none of them holds a comma, a bracket or white space |
| RunExperiment.PieceChars | scripts/run-experiment.js:37 | every character of a piece of a split comes from the text and is not the separator |
| RunExperiment.JoinHolds | scripts/run-experiment.js:37 | every character of a piece occurs in the joined text |
| RunExperiment.ApplyOptionConditions | scripts/run-experiment.js:32-35 | one option keeps the condition list free of repeats, only extends it, and adds exactly its own condition text |
| RunExperiment.DistinctSnoc | scripts/run-experiment.js:32-35 | appending a condition text not yet in the list keeps the list free of repeats |
| RunExperiment.ApplyOptionsDistinct | scripts/run-experiment.js:24-39 | the options of a line keep the condition list free of repeats and only extend it |
| RunExperiment.ApplyOptionsConditions | scripts/run-experiment.js:24-39 | after a line's options the condition list holds exactly the old conditions and those the options name |
| RunExperiment.NamesSnoc | scripts/run-experiment.js:24-39 | the conditions named by one more option are those named before and its own |
| RunExperiment.NameIndex | scripts/run-experiment.js:40 | finds the first parameter with the name, or -1 exactly when none has it |
| RunExperiment.AssignMeaning | scripts/run-experiment.js:40 | assigning a parameter keeps names distinct, holds the new parameter, keeps the entries of other names in place, drops nothing else, and grows the list only for a new name |
| RunExperiment.ReadOptions | scripts/run-experiment.js:23-39 | the loop over a line's options gives the values and conditions of applying them in order |
| RunExperiment.ProcessedStops | scripts/run-experiment.js:19-41 | once a prefix of the lines fails, the whole file fails with the same error |
| RunExperiment.ProcessedStep | scripts/run-experiment.js:19-41 | one more line either fails the file or assigns its parameter and takes over its conditions |
| RunExperiment.ReadParamLine | scripts/run-experiment.js:20-40 | one line: comment cut, split at `~`, options applied; a line without `~` fails |
| RunExperiment.ProcessLines | scripts/run-experiment.js:19-41 | the loop over the lines computes the parameters and conditions of the file, or the first line's failure |
| RunExperiment.ParamsProcessor | scripts/run-experiment.js:14-44 | the non-empty lines of the parameter file are read in order |
| RunExperiment.ProcessedLast | scripts/run-experiment.js:19-41 | a file that reads without error is its lines but the last, read without error, with the last line's parameter assigned and its options applied |
| RunExperiment.ProcessedConditions | scripts/run-experiment.js:32-35 | the conditions of a file that reads without error are free of repeats and exactly those some line names |
| RunExperiment.ProcessedNames | scripts/run-experiment.js:21-40 | the parameters of a file that reads without error have distinct names, exactly the names its lines declare |
| RunExperiment.SomeLast | scripts/run-experiment.js:19-41 | something holds of an element exactly when it holds of one before the last or of the last |
| RunExperiment.DeclaredLast | scripts/run-experiment.js:21-40 | the names a file declares are those of its lines but the last, and the last line's |
| RunExperiment.Row | scripts/run-experiment.js:62-64 | one combination per value, each the given combination followed by that value |
| RunExperiment.ExtendCount | scripts/run-experiment.js:60-65 | extending by a parameter multiplies the number of combinations by its number of values |
| RunExperiment.ExtendConcat | scripts/run-experiment.js:60-65 | extending keeps the order of the combinations being extended |
| RunExperiment.ExtendMember | scripts/run-experiment.js:60-65 | an extended combination is exactly a combination built so far followed by a value |
| RunExperiment.ProductCount | scripts/run-experiment.js:52-68 | there are as many combinations as the product of the numbers of values |
| RunExperiment.ProductMember | scripts/run-experiment.js:52-68 | a combination is built exactly when it picks one value of each parameter, in parameter order |
| RunExperiment.ProductOfOne | scripts/run-experiment.js:53 | a single parameter gives one one-value combination per value, in order |
| RunExperiment.RowOf | scripts/run-experiment.js:62-64 | the innermost loop extends a combination by each value in turn |
| RunExperiment.ExtendAll | scripts/run-experiment.js:58-67 | the middle loop extends every combination, in order, by every value |
| RunExperiment.BuildProduct | scripts/run-experiment.js:53-68 | the nested loops build every combination of the value lists, the first parameter varying slowest |
| RunExperiment.ValueLists | scripts/run-experiment.js:52-57 | one value list per parameter, in name order |
| RunExperiment.Labelled | scripts/run-experiment.js:70-75 | each value paired with the name of its parameter, in order |
| RunExperiment.GeneratedMeaning | scripts/run-experiment.js:51-87 | with at least one parameter the generator succeeds, and a labelled combination is generated exactly when it picks one value per parameter, under the parameter's name, and passes every condition |
| RunExperiment.Label | scripts/run-experiment.js:70-75 | the loop pairs each value with its parameter's name |
| RunExperiment.Check | scripts/run-experiment.js:78-83 | true exactly when every condition holds on the combination |
| RunExperiment.KeepPassing | scripts/run-experiment.js:70-84 | keeps, in order, the labelled combinations on which every condition holds |
| RunExperiment.PermGenerator | scripts/run-experiment.js:51-87 | the generator as the loops run it, failing on an empty parameter file |
| RunExperiment.Pairs | scripts/run-experiment.js:128 | one `"name":"value"` pair per parameter, in order |
| RunExperiment.DropFinalComma | scripts/run-experiment.js:130 | a final comma is removed and nothing else; text without one is kept |
| RunExperiment.AccumulatedPairs | scripts/run-experiment.js:124-129 | the loop leaves `{` and the pairs joined by commas, followed by a comma |
| RunExperiment.OptionsKeyShape | scripts/run-experiment.js:124-130 | a combination's key is its pairs joined by commas, in braces |
| RunExperiment.CommandStep | scripts/run-experiment.js:126-129 | one parameter more adds its ` --name value` argument and its pair |
| RunExperiment.Command | scripts/run-experiment.js:123-130 | the command is the program, `--file`, the instance, `--skip-file-log` and one argument per parameter; the key is the pairs in braces |
| RunExperiment.Field | scripts/run-experiment.js:143 | a field of the split is present exactly when its index is in range, and is then that piece |
| RunExperiment.ReadLineFields | scripts/run-experiment.js:143-149 | four fields joined by `;` are read back as score, time, iteration count and solution |
| RunExperiment.ParseRunLastLine | scripts/run-experiment.js:140-149 | whatever came before, a last line `score;time;iters;sol` is read back field by field |
| RunExperiment.ParseRun | scripts/run-experiment.js:140-149 | reading a try's output can fail only with the fault of finding no non-empty line to split |
| RunExperiment.LastLine | scripts/run-experiment.js:140-141 | the last non-empty line of some text, a line break, a line and a line break is that line |
| RunExperiment.ParseRunBlank | scripts/run-experiment.js:140-143 | output made only of line breaks fails: there is no last line to split |
| RunExperiment.BlankPieces | scripts/run-experiment.js:140 | splitting only line breaks gives only empty pieces |
| RunExperiment.Aggregate | scripts/run-experiment.js:158-173 | the aggregation loop of one combination computes its averages and best run, failing without runs |
| RunExperiment.Best | scripts/run-experiment.js:162-167 | the best run is one of the runs |
| RunExperiment.Summarized | scripts/run-experiment.js:158-173 | the aggregation fails exactly when there are no runs, and then on reading the first run's score; otherwise its best run is one of the runs |
| RunExperiment.BestIsFirstMaximal | scripts/run-experiment.js:162-167 | the best run is one of the runs; when every score is a number it has the greatest score and is the first run with it |
| RunExperiment.BestStaysWhenFirstIsNaN | scripts/run-experiment.js:166-167 | a first run whose score is NaN is never replaced |
| RunExperiment.TotalBound | scripts/run-experiment.js:160-169 | when every score is a number the summed score is a number at most the number of runs times any bound on the scores |
| RunExperiment.AverageAtMostBest | scripts/run-experiment.js:160-173 | when every score is a number the average score is a number no greater than the best run's score |
| RunExperiment.AverageBound | scripts/run-experiment.js:172 | a total of n terms none above m averages at most m |
| RunExperiment.LogFields | scripts/run-experiment.js:175 | a log line has seven fields, the first being the combination's key |
| RunExperiment.LogLineFields | scripts/run-experiment.js:175 | a log line without its line break splits back at `;` into its seven fields when none of them holds a `;` |
| RunExperiment.BatchEnd | scripts/run-experiment.js:117 | a batch ends past its start, at most twenty combinations later and not past the end; only the last batch is shorter |
| RunExperiment.BatchesCount | scripts/run-experiment.js:116-181 | the combinations from i on take (n - i) / 20, rounded up, batches |
| RunExperiment.CollectStops | scripts/run-experiment.js:116-181 | once a prefix fails the whole collection fails with the same error |
| RunExperiment.Outcomes | scripts/run-experiment.js:133-135 | ten outcomes, the t-th being what the solver reports on try t |
| RunExperiment.CollectLength | scripts/run-experiment.js:121-155 | where no element is skipped, a successful collection has one result per element, result k being what element k gave |
| RunExperiment.EntriesMeaning | scripts/run-experiment.js:121-131 | a batch whose runs all complete gives one entry per combination, in order, under that combination's options key |
| RunExperiment.KeyIndex | scripts/run-experiment.js:131-149 | finds the first group under the key, or -1 exactly when no group has it |
| RunExperiment.FirstOccurrencesMeaning | scripts/run-experiment.js:131-158 | the keys of an object in insertion order are free of repeats, are exactly the keys ever assigned, are no more than the assignments, and are the assignments themselves when those are distinct |
| RunExperiment.FirstOccurrencesDistinct | scripts/run-experiment.js:131-158 | when the object ends up with as many keys as there were assignments, the assigned keys were all different |
| RunExperiment.GroupedMeaning | scripts/run-experiment.js:131-158 | the object the tries fill has one property per distinct options key, in the order first assigned, holding the runs of every combination with that key, in order |
| RunExperiment.SummarizeAllMeaning | scripts/run-experiment.js:158-177 | the loop over the keys writes one log line per key, in order, each from that key's runs; it stops at the first key without runs, leaving the lines of the keys before it written, and completes exactly when every key has runs |
| RunExperiment.SummarizeAllStops | scripts/run-experiment.js:158-177 | once the aggregation of a prefix of the keys throws, the remaining keys change nothing |
| RunExperiment.BatchLogLength | scripts/run-experiment.js:131-177 | a batch that completes writes one line per distinct options key, in order of first appearance, each summarising the runs of every combination with that key; that is one line per combination exactly when the keys are distinct |
| RunExperiment.BatchLogCount | scripts/run-experiment.js:131-177 | a batch that completes writes no more lines than it has combinations, and exactly one per combination when their keys are distinct |
| RunExperiment.ExperimentLogComplete | scripts/run-experiment.js:116-181 | an experiment that runs to the end writes at most one line per combination plus one progress line per batch, exactly that many when the combinations' keys are distinct, the last line reporting that every combination was reached |
| RunExperiment.ExperimentLogLength | scripts/run-experiment.js:116-181 | an experiment that runs to the end writes at most one line per combination plus one progress line per batch, and exactly that many when the keys are distinct |
| RunExperiment.ExperimentLogLast | scripts/run-experiment.js:116-181 | the last line of an experiment that runs to the end is the progress line that reports every combination reached |
| RunExperiment.RunTries | scripts/run-experiment.js:133-154 | the ten tries of one command in order: a failed exec is skipped, unreadable output stops the run |
| RunExperiment.CollectStep | scripts/run-experiment.js:121-155 | one element more is appended, skipped or stops the collection |
| RunExperiment.RunEntries | scripts/run-experiment.js:121-155 | each combination of a batch is run ten times, in order |
| RunExperiment.GroupRuns | scripts/run-experiment.js:131-149 | collecting the runs under their options keys builds the object the aggregation loop iterates over, duplicate keys sharing one property |
| RunExperiment.SummarizeEntries | scripts/run-experiment.js:158-177 | the loop over the grouped keys writes each key's log line in order, and on a key without runs stops with the lines before it already written |
| RunExperiment.RunBatch | scripts/run-experiment.js:118-177 | one batch: all runs first, then one log line per distinct options key; a failure while running writes nothing, a failure while summarising keeps the lines already written |
| RunExperiment.NextBatch | scripts/run-experiment.js:116-181 | one pass of the main loop ends past i and not past the end; the log from i is its lines, its progress line and the log from where it ended, and a failed batch ends the log with the lines it had written |
| RunExperiment.LogSoFarStep | scripts/run-experiment.js:176-180 | appending a batch's lines and progress line moves the log on to the batch's end |
| RunExperiment.RunAll | scripts/run-experiment.js:111-182 | the main loop writes the log of all batches from the first combination on; on the first failure the log ends with what that batch had written |
| ScriptPaths.UnderCwd | scripts/run-experiment.js:93-94 | a `./x` argument becomes the working directory, a slash and x |
| ScriptPaths.Resolve | scripts/run-experiment.js:92-98 | with an anchored working directory every resolved argument is anchored |
| ScriptPaths.AnchoredExtend | scripts/run-experiment.js:95 | a path starting with `/`, `~`, `ftp` or `http` keeps that start whatever is appended |
| ScriptPaths.ResolveAnchored | scripts/run-experiment.js:92-98 | with an anchored working directory every resolved path is anchored and resolving it again changes nothing |
| ScriptPaths.ResolveTwice | scripts/process-experiment-results.js:255-259 | with an anchored working directory the consecutive-if variant opens the same file as the early-return one |
| ScriptPaths.ResolveTwiceRepeatsCwd | scripts/process-experiment-results.js:255-259 | with a working directory that is not anchored, the consecutive-if variant puts it in front of a `./x` argument twice |
| ExperimentResults.GetMeaning | scripts/process-experiment-results.js:241-242 | a property read that is not undefined is the value of an entry under that name; a name with no entry reads as undefined |
| ExperimentResults.SetMeaning | scripts/process-experiment-results.js:136-142 | after an assignment the property holds the new value and every other property reads as before |
| ExperimentResults.IndexNamed | scripts/process-experiment-results.js:241-242 | the decimal index a property name denotes: a name found is the rendering of an index below the bound, and a name not found renders no such index |
| ExperimentResults.Property | scripts/process-experiment-results.js:241-242 | `val[k]` throws a TypeError naming `k` exactly when `val` is undefined; on an object it reads the entry under `k`, or undefined |
| ExperimentResults.Lookup | scripts/process-experiment-results.js:240-243 | a walk that throws names one of the pieces of its path as the property read from undefined |
| ExperimentResults.LookupConcat | scripts/process-experiment-results.js:240-243 | walking one path and then another is walking their concatenation, and a walk that throws on the first path throws the same way on the whole |
| ExperimentResults.LookupFails | scripts/process-experiment-results.js:240-243 | a walk throws exactly when some proper prefix of the path leads to undefined and a further piece is read from it |
| ExperimentResults.Walk | scripts/process-experiment-results.js:239-243 | the forEach over the dot-separated pieces of a key reads one property per piece, in order, and stops with the TypeError at the first piece read from undefined |
| ExperimentResults.KeyValueDotted | scripts/process-experiment-results.js:240-243 | a key `a.b` reads property b of property a, and throws a TypeError naming b when property a is undefined |
| ExperimentResults.FieldValue | scripts/process-experiment-results.js:134 | a destructured field is its piece of the split when present and undefined past the end |
| ExperimentResults.ParseIntValueMeaning | scripts/process-experiment-results.js:136-142 | parseInt of an integer parameter gives back that integer, whether the JSON holds it as a number or as its decimal text |
| ExperimentResults.ParseIntUndefined | scripts/process-experiment-results.js:136-142 | parseInt of a missing parameter is NaN |
| ExperimentResults.ParseIntsMeaning | scripts/process-experiment-results.js:136-142 | rewriting distinct keys with parseInt turns each one into what parseInt makes of the text of its value (a number is read through its rendering, undefined gives NaN) and leaves every other property as it was |
| ExperimentResults.ParamNamesDistinct | scripts/process-experiment-results.js:136-142 | the seven rewritten parameter names are distinct, the float one among none of the integer ones |
| ExperimentResults.NumericParamsMeaning | scripts/process-experiment-results.js:136-142 | the six integer parameters hold parseInt of the text of their value, sa-cool-fact holds parseFloat of the text of its value, and every other parameter is unchanged |
| ExperimentResults.ParseLines | scripts/process-experiment-results.js:133-153 | a successful map gives one record per line, each what its line parses to; a failed one carries the fault of one of the lines |
| ExperimentResults.ParseLinesMeaning | scripts/process-experiment-results.js:133-153 | mapping the lines succeeds exactly when every line parses, giving one record per line in order; otherwise the fault is that of the first line that does not parse |
| ExperimentResults.ProgressAndResultLines | scripts/process-experiment-results.js:132 | the parser drops the progress lines run-experiment.js writes and keeps its result lines |
| ExperimentResults.Parser | scripts/process-experiment-results.js:130-154 | a successful parse gives one record per line that is not a progress line, in order, each what its line parses to |
| ExperimentResults.ParseLogLine | scripts/process-experiment-results.js:134-152 | a result line run-experiment.js writes is read back: the averages through parseFloat, the best score, time and iteration count through parseInt, the solution as text |
| ResultsOrder.Key | scripts/process-experiment-results.js:239-243 | reading a record under a dotted key fails only with a TypeError naming one of the pieces of the key |
| ResultsOrder.WalkBothMeaning | scripts/process-experiment-results.js:240-243 | the interleaved walk of both records succeeds exactly when each record's own walk does, and then gives both values |
| ResultsOrder.KeyPairMeaning | scripts/process-experiment-results.js:239-243 | the pair of values under a key is read exactly when both records can be read under it |
| ResultsOrder.Compare | scripts/process-experiment-results.js:236-250 | when the comparator returns, it answers -1, 0 or 1; it can also throw a TypeError instead |
| ResultsOrder.Comparator | scripts/process-experiment-results.js:236-250 | the loop over the keys, with its early returns and the walk that can throw, computes the comparator |
| ResultsOrder.StrLessIrreflexive | scripts/process-experiment-results.js:245-246 | no string is less than itself |
| ResultsOrder.StrLessAsymmetric | scripts/process-experiment-results.js:245-246 | string less-than never holds both ways |
| ResultsOrder.StrLessTotal | scripts/process-experiment-results.js:245-246 | two different strings are ordered one way or the other |
| ResultsOrder.StrLessTransitive | scripts/process-experiment-results.js:245-246 | string less-than is transitive |
| ResultsOrder.LessStrict | scripts/process-experiment-results.js:245-246 | JavaScript's less-than on property values never holds both ways nor of a value and itself |
| ResultsOrder.CompareAntisymmetric | scripts/process-experiment-results.js:236-250 | the comparator throws on a pair exactly when it throws on the swapped pair, and otherwise swapping the records negates its answer |
| ResultsOrder.CompareReflexive | scripts/process-experiment-results.js:236-250 | a record that can be read under every key compares equal to itself |
| ResultsOrder.CompareMeaning | scripts/process-experiment-results.js:236-250 | the answer is 0 exactly when no key tells the records apart; it is 1 exactly when the first key that does gives the first record the smaller value, so larger values come first; it throws exactly when the walk of the first key not yet tied throws on either record |
| ResultsOrder.TiedShift | scripts/process-experiment-results.js:236-250 | the records are tied on the first i + 1 keys exactly when they are tied on the first key and on the first i of the remaining keys, which is how the comparison moves from one key to the next |
| ResultsOrder.CompareTied | scripts/process-experiment-results.js:236-250 | the comparison answers 0 exactly when every key reads equal on both records |
| ResultsOrder.CompareAfter | scripts/process-experiment-results.js:236-250 | the comparison answers 1 exactly when the first key that tells the records apart gives the first record the smaller value |
| ResultsOrder.CompareThrows | scripts/process-experiment-results.js:236-250 | the comparison throws exactly when some key reached while the records are still tied cannot be read on one of them |
| ResultsOrder.FirstKeyRead | scripts/process-experiment-results.js:237-243 | a comparison that returns has read both records under the first key |
| ResultsOrder.CompareReadable | scripts/process-experiment-results.js:236-250 | records that can both be read under every key always compare without throwing |
| ResultsOrder.TiedComparable | scripts/process-experiment-results.js:245-246 | on two numbers or two strings, neither being less than the other means being equal |
| ResultsOrder.CompareTransitive | scripts/process-experiment-results.js:236-250 | when every key holds numbers other than NaN or strings on all three records, "not after" is transitive |
| ResultsOrder.SortedThroughout | scripts/process-experiment-results.js:235-251 | a sequence in order pair by pair, with comparable keys, has no record after any later one |
| ResultsOrder.SortRecords | scripts/process-experiment-results.js:235-251 | sorting in place always keeps the same records (a permutation); a sort that completes leaves them in comparator order; records readable under every key never make it throw; at least two records none of which can be read under the first key always make it throw |
| ResultsOrder.SwapStep | scripts/process-experiment-results.js:235-251 | exchanging an element with the one before it, which it does not come after, keeps both sorted stretches in order |
| ResultsOrder.InsertLast | scripts/process-experiment-results.js:235-251 | moving the next record left into a sorted prefix keeps the same records and extends the sorted prefix by one; it throws only if some record cannot be read under some key, and otherwise has compared that record with the one before it |
| ResultsOrder.Swap | scripts/process-experiment-results.js:235-251 | exchanges two neighbouring records and nothing else |
| ResultsOutput.RecordProperties | scripts/process-experiment-results.js:144-152 | the record object holds params and the six result fields under their names |
| ResultsOutput.GetStep | scripts/process-experiment-results.js:190 | a property read checks the first entry and then the rest |
| ResultsOutput.ColumnPathsPlain | scripts/process-experiment-results.js:190 | no step of a column path holds a dot |
| ResultsOutput.LookupShort | scripts/process-experiment-results.js:190 | a one-step path reads one property, a two-step path a property of a property |
| ResultsOutput.FieldIsPath | scripts/process-experiment-results.js:190 | column j of a row is the value at the end of the j-th column path |
| ResultsOutput.FieldsAreColumns | scripts/calc-experiment-results.js:77-79 | a row has fifteen values, value j being what the sort sees under the j-th dotted header key |
| ResultsOutput.ColumnKeysReadable | scripts/calc-experiment-results.js:77-79 | every record can be read under any of the fifteen header keys, so sorting by them never throws |
| ResultsOutput.ChunksMeaning | scripts/process-experiment-results.js:183-186 | the groups put back together are the records in order; there are as many as a hundred fits into the count, rounded up; each holds one to a hundred records and all but the last exactly a hundred |
| ResultsOutput.ChunkIndex | scripts/process-experiment-results.js:183-186 | record k of group c is record 100·c + k |
| ResultsOutput.ChunksSnoc | scripts/process-experiment-results.js:184-185 | one more record opens a new group when the count so far is a multiple of a hundred and joins the last group otherwise |
| ResultsOutput.ChunkRecords | scripts/process-experiment-results.js:183-186 | the forEach groups the records by a hundred |
| ResultsOutput.JoinEndsWith | scripts/process-experiment-results.js:190 | a join ends with its last part |
| ResultsOutput.StatementUntrimmed | scripts/process-experiment-results.js:189-190 | trimming leaves a non-empty group's statement as built |
| ResultsOutput.SqlStatementsMeaning | scripts/process-experiment-results.js:188-191 | one statement per group of a hundred records, each the INSERT header followed by the group's rows joined by a comma and a line break |
| ResultsOutput.SqlFileTerminated | scripts/process-experiment-results.js:192 | the .sql text ends every statement with `;` and a line break |
| ResultsOutput.SqlRowSplits | scripts/process-experiment-results.js:190 | without commas in the values a row is a parenthesised list that splits back at the commas into its fifteen cells |
| ResultsOutput.SqlRowCells | scripts/process-experiment-results.js:190 | without commas in the values a row reads back as its fifteen cells, each the value the sort sees under that column's key, quoted in the three text columns |
| ResultsOutput.PrepCsv | scripts/process-experiment-results.js:196-211 | fails exactly when the query result has no rows |
| ResultsOutput.PrepCsvLines | scripts/process-experiment-results.js:196-209 | the content is a header of the first row's quoted field names and one line per row in order, each splitting back into its cells, numbers bare and the rest quoted |
| ResultsOutput.CalcCells | scripts/calc-experiment-results.js:79 | fifteen cells, cell j being value j of the record as the template renders it |
| ResultsOutput.CalcLines | scripts/calc-experiment-results.js:78-80 | one line per record |
| ResultsOutput.CalcLinesSnoc | scripts/calc-experiment-results.js:78-80 | the lines of all records but the last, then the last one's |
| ResultsOutput.Csv | scripts/calc-experiment-results.js:77-80 | the `+=` loop builds the header and one line per record |
| ResultsOutput.ColumnsPlain | scripts/calc-experiment-results.js:77 | no header key holds a line break or a `;` |
| ResultsOutput.SplitAppendLine | scripts/calc-experiment-results.js:79 | appending a line and a line break to text ending in a line break replaces the last, empty piece of its split by the line and a new empty piece |
| ResultsOutput.AppendedEnds | scripts/calc-experiment-results.js:77-80 | the content built so far ends with a line break |
| ResultsOutput.ReplaceLastPiece | scripts/calc-experiment-results.js:79 | replacing the last empty piece with a line and a new empty piece extends the lines by that line |
| ResultsOutput.CalcLinePlain | scripts/calc-experiment-results.js:79 | a record line has no line break when none of its values has |
| ResultsOutput.AppendLine | scripts/calc-experiment-results.js:79 | one line more appended to header, earlier lines and a last empty piece takes that piece's place |
| ResultsOutput.AppendedLines | scripts/calc-experiment-results.js:77-80 | without line breaks the text is the header line, then one line per record in order, each ended by a line break |
| ResultsOutput.CalcContentLines | scripts/calc-experiment-results.js:75-80 | the CSV content is the fixed header line, then one line per record in order, then an empty piece after the final line break |
| ResultsOutput.CalcLineFields | scripts/calc-experiment-results.js:79 | without `;` in the values, each record line has fifteen fields, field j holding the value the sort sees under header key j |
| ResultsOutput.SortedCopy | scripts/process-experiment-results.js:269 | keeps the records read; when the sort completes they are in comparator order; keys every record can be read under never make it throw, and a first key no record can be read under makes a sort of two or more records throw |
| ResultsOutput.ProcessResults | scripts/process-experiment-results.js:255-270 | no argument stops the script; an unparsable line stops it with that line's fault; a sort key that throws stops it before any .sql text is written, and at least two records none of which can be read under the first key always do; otherwise the records are the ones read, sorted by the keys after the path, grouped into statements and written as the .sql text, which always happens when every record can be read under every key |
| ResultsOutput.CalcResults | scripts/calc-experiment-results.js:126-140 | no argument stops the script; an unparsable line stops it with that line's fault; a sort key that throws stops it before any CSV is written, and at least two records none of which can be read under the first key always do; otherwise the records are the ones read, sorted by the keys after the path, and written as the CSV text, which always happens when every record can be read under every key |
| Text.Split | scripts/instance-preprocessor.js:11 | a split has at least one piece and no piece holds the separator |
| Text.SplitCount | scripts/instance-preprocessor.js:11-13 | a split has one piece more than the text has separators |
| Text.JoinSplit | scripts/instance-preprocessor.js:53 | joining the pieces of a split with the separator gives the text back |
| Text.SplitJoin | scripts/instance-preprocessor.js:27 | splitting a join of separator-free pieces gives the pieces back |
| Text.SplitConcat | scripts/instance-preprocessor.js:55 | splitting at a separator splits the two sides independently |
| Text.TrimMeaning | src/Helpers/Parsers/FileParser.cs:60 | trimming keeps one slice of the text, everything cut before and after it is white space, and the slice neither starts nor ends with white space |
| Text.TrimStart | src/Helpers/Parsers/FileParser.cs:60 | trimming the front keeps a suffix of the text, everything cut being white space, and the suffix does not start with white space |
| Text.TrimEnd | src/Helpers/Parsers/FileParser.cs:60 | trimming the back keeps a prefix of the text, everything cut being white space, and the prefix does not end with white space |
| Text.NatToString | src/Helpers/Parsers/FileParser.cs:62-64 | the decimal rendering of a natural number is a non-empty run of digits without a leading zero |
| Text.NatToStringRoundTrip | src/Helpers/Parsers/FileParser.cs:62-64 | reading back the decimal rendering of a natural number gives the number |
| Text.IntToStringShape | src/Helpers/Parsers/FileParser.cs:62-64 | the rendering of an integer holds only digits after an optional leading minus, which appears exactly for negatives |
| JsText.FilterMeaning | scripts/instance-preprocessor.js:42 | `filter` keeps exactly the elements the predicate accepts |
| JsText.FilterConcat | scripts/instance-preprocessor.js:42 | filtering a concatenation filters both sides in order |
| JsText.FirstOccurrence | scripts/instance-preprocessor.js:33 | the first position where the pattern occurs, or the end of the text when it does not occur |
| JsText.ReplaceFirstAtStart | scripts/instance-preprocessor.js:32-33 | replacing a pattern the text starts with replaces that prefix |
| JsText.ReplaceFirstAbsent | scripts/instance-preprocessor.js:33 | a text without the pattern is kept as it is |
| JsText.RadixDigit | scripts/instance-preprocessor.js:47 | a character read as a digit of a radix has a value below the radix |
| JsText.DigitRun | scripts/instance-preprocessor.js:47 | the longest prefix of digits of the radix |
| JsText.Run | scripts/instance-preprocessor.js:47 | parseInt finds no number in its digit part exactly when that part is empty or does not start with a digit of the radix |
| JsText.ParseIntRoundTrip | scripts/instance-preprocessor.js:47 | parseInt reads back a rendered integer followed by anything that does not continue the number |
| JsText.ParseInt | scripts/instance-preprocessor.js:47 | parseInt yields a number only from a text holding a decimal digit; without one it is NaN |
| JsText.NoDigitNaN | scripts/instance-preprocessor.js:47 | after the leading white space is skipped, a text without decimal digits reads as no number |
| JsText.UnsignedNoDigit | scripts/instance-preprocessor.js:47 | text that does not begin with a decimal digit has no unsigned number at its front |

## Left out

- The Solution object: its `Insert`, `Remove`, `Swap`, `Clone`, `IsValid`, empty and filled spaces and score. They are defined in no file of the source (src/Models/Algorithm/Solution.cs:6-10 is a data stub), so the driver sees them only as an abstract `Oracle`. Their time windows, interval cascades and rollback are not modelled.
- The exhaustive drivers (BruteForceAlgorithm.cs, CleverBruteForceAlgorithm.cs). They only branch over the unseen Solution operations; their enumeration helpers in ArrayExtension.cs are modelled.
- `System.Random`: every draw is a parameter, and a draw `d` standing for `rand.Next(0, n)` is read as `d % n`.
- The outer `while (T > 0)` loop of `Solve` and its cooling functions (SimulatedAnnealingAlgorithm.cs:35-38, 90-91, 314-324). They work on doubles and end only through underflow. The Metropolis draw `rnd < epsilon` (line 56-58) is a boolean parameter `lucky` of `Annealing.Step`.
- The perturbation (SimulatedAnnealingAlgorithm.cs:81-87) runs `RemoveRandom`, `SwapPivots` and `InsertRandom` once the stall count passes ten. Each move is modelled on its own; inside `Annealing.Pass` their combined effect on the current solution and the pool is a parameter `perturb`, so what one pass does to the best solution is stated whatever the moves do.
- Annealing.StepKeepsBest: covers one move only (lines 43-79). Over a whole pass the best score can drop as written, because the perturbation changes the object the best also names (see Findings).
- The candidate ranking and backtracking construction of `GenerateInitialSolution` (SimulatedAnnealingAlgorithm.cs:101-177), and the pool filters at lines 180-186 and 211-217. Their outcome depends entirely on the unseen `Insert` and `Remove`. Of that method, the model keeps the skip stride (lines 188-193, indices only, without the random tour and the inserts at 194-208) and the pivot slots (lines 219-242).
- Annealing.FindPoiWithHighestSpace: requires the first tour to hold a filled space. Without one, `First()` throws InvalidOperationException, which is not modelled.
- Annealing.PoiTypeSelectionPolicy: requires a non-empty type list whose every type has a counter. Otherwise the source throws IndexOutOfRange or KeyNotFound, and `Annealing.Move` inherits the same precondition.
- AnnealingMoves.RemoveRandom: requires at least one tour, because with none the source indexes an empty array at line 353. Its contract states which ids may be requested, not the state `Remove` leaves behind.
- AnnealingMoves.SwapPivots: states only that every slot keeps its keys, ids and single selected candidate. The pool bookkeeping of each try is stated by `AnnealingMoves.SwapPivot`.
- AnnealingMoves.InsertRandom: states bounds on the pool (a sub-multiset, at most six entries shorter), not which entries leave it.
- FileParser.DecimalValue and FileParser.ParseFloat: accept only plain decimal notation (digits, at most one point). The `float.Parse` of FileParser.cs:93 also accepts a sign, exponents, thousands separators, `NaN`, `Infinity` and the forms of the current culture; those inputs are modelled as format errors.
- ArrayExtension.Permutations and ArrayExtension.Expand: carry no postcondition of their own; what they compute is stated by the lemmas PermutationsRearrange, PermutationsCount, PermutationsGrouped, ExpandRearranges, ExpandCount and ExpandAt.
- Floating point. C# `float` and JavaScript numbers are modelled as `real` or `int`, without rounding. This covers the POI fields, the summed budget and times, `parseFloat` (a parameter), the averages of run-experiment.js, the rendering of numbers (a parameter `show`), and the `range:` option with its `toFixed(2)` stepping (an abstract `range` function).
- RunExperiment.AverageAtMostBest: proved over exact reals. With doubles, rounding of the sum can in principle push the average past the best score.
- `parseInt` precision above 2^53, and JavaScript's ordering of integer-like property names first in an object (so `params`, parameter maps and the `execResults` object of run-experiment.js keep insertion order). Properties inherited from `Object.prototype` are not modelled: a record has only the properties the parser gives it, and a missing one reads as undefined.
- I/O. This covers `StreamReader` and the check at FileParser.cs:13-14 that throws "Input path is not a file", `fs` reads and writes, MySQL, the query-result CSV file names, the removal of an existing `.sql` file, and `console` output. File contents are parameters (`read`), written files are returned values, and `path.basename` output file names are not modelled.
- `exec` of the solver: it is a parameter `exec` giving the outcome of each try. `Promise.all` concurrency is not modelled; runs are collected in try order, which the aggregation does not depend on except through the first-best tie rule. Combinations with the same options key share one property of `execResults`, as in the source: their runs are pooled and summarised once.
- The appends to the log file (run-experiment.js:176, 180) are modelled as issued in order and as completed. Their callbacks are ignored, so a write that fails is not modelled; a batch whose aggregation throws part-way keeps the lines issued before the throw.
- `eval` of the conditions: an abstract predicate `holds`. `JSON.parse` of the option key: an abstract `parseJson`.
- The command-line checks of run-experiment.js (lines 92-104: resolving the arguments, the usage message and `process.exit`).
- ResultsOrder.SortRecords: ECMAScript 2019 and later require `Array.prototype.sort` to be stable but leave the algorithm, and so which pairs the comparator sees, to the engine. The model is an insertion sort, which is stable; with a comparator that throws, whether a given engine reaches the throwing pair is engine-specific, and the model claims the throw only when at least two records cannot be read under the first key. Sortedness is stated pairwise, and ResultsOrder.SortedThroughout carries it to all pairs only when every key holds numbers other than NaN or strings.
- ResultsOrder.CompareTransitive: holds only when every key gives the three records numbers other than NaN or strings. With NaN or mixed kinds, JavaScript's comparison is not an order, and nothing is claimed.
- JavaScript string `<` is modelled on UTF-16 code units, as `char` order. Comparisons between a number and a string are modelled as false both ways.
- The glue: LogFactory.cs, Program.cs, CliArgs.cs, IParser.cs, `MathExtension.Euclidean`, and run-brute-force.js.
- The type of a POI is one integer type id throughout. The source declares `Poi.Type` as `string[]` (Poi.cs:15) but `ParsePoi` assigns an integer, and Validator and the policy compare integer types.
- Tours are ordered sequences. The `HashSet` iteration order of Solution.cs:8 is unspecified.
- Where the design and the code differ, the model follows the code. `RemoveRandom` does not put the removed POIs back into the pool. `IsMaxPoisValid` resets its counters for each tour, so it caps types per tour, not over the whole solution.

## Findings

| source | as written | input that shows it | evidently intended | confidence | as-written member | corrected member |
|---|---|---|---|---|---|---|
| src/Models/Algorithm/Validator.cs:102-103 | the cap check counts visits by POI id (`counters[item]++`) in a dictionary keyed by type | a tour [5, 6] of two POIs of type 1 with cap 1 for type 1 throws KeyNotFound; a visit of id 1 (type 2) against caps {1: 0, 2: 5} is reported over the cap | count each visit under its POI's type (`counters[PoiTypes[item]]++`) | high, not executed | Validator.MaxPoisCountsIdsNotTypes | Validator.MaxTypesValidIff |
| src/Models/Algorithm/SimulatedAnnealingAlgorithm.cs:191-193 | the stride loop starts at `-skip` and reads `other[i + skip < length ? i + skip : length - 1]` | an empty `other` with skip 1 or 2: the body runs once and reads index -1 | skip the stride when there is nothing to place | high, not executed | Annealing.StrideReadsBeforeStart | Annealing.GuardedStrideInRange |
| src/Models/Algorithm/SimulatedAnnealingAlgorithm.cs:405-407 | the replacement is re-drawn while it equals the selected candidate | a pivot slot with a single candidate: every draw is 0, the selected index, so the loop never ends | leave a slot with fewer than two candidates alone | high, not executed | AnnealingMoves.RerollSingleCandidate | AnnealingMoves.PickReplacementSound |
| src/Models/Algorithm/SimulatedAnnealingAlgorithm.cs:81-87 | `best = S` (lines 31 and 68) stores a reference, so once a new best is found best and current are one object, and the perturbation at lines 81-87 changes it in place | a move that finds a new best, followed by eleven moves without a valid neighbour: the perturbation then rewrites the best, and a perturbed solution with a lower score lowers the best score | keep the best as a copy (`best = S.Clone()`), so that the best score never drops | medium, not executed | Annealing.PassLosesBest | Annealing.PassClonedKeepsBest |
