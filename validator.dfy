/**
 * The stand-alone solution checker: a solution is a list of tours (POI ids in
 * visiting order) with the time recorded at each visit, and it is checked against
 * the instance tables for budget, mandatory type pattern, time windows and per-type caps.
 * Each check is a loop over the tours that either returns a verdict or, where the
 * C# code indexes a dictionary with a missing key or a list past its end, throws.
 */
module Validator {
  import opened Wrappers

  /** The exception a check can raise before it returns. */
  datatype Fault = KeyNotFound | IndexOutOfRange

  /** What a check does: returns true, returns false, or throws. */
  datatype Outcome = Valid | Invalid | Thrown(fault: Fault)

  /** Opening (`From`) and closing (`To`) time of a POI. */
  datatype Window = Window(from: int, to: int)

  /** The read-only instance tables the checks consult; every table is keyed by POI id,
      except `maxPoisOfType` (keyed by type) and `patterns` (keyed by tour index). */
  datatype MetaData = MetaData(
    costBudget: int,
    costs: map<int, int>,
    startTime: int,
    endTime: int,
    durations: map<int, int>,
    workingHours: map<int, Window>,
    poiTypes: map<int, int>,
    maxPoisOfType: map<int, int>,
    patterns: map<int, seq<int>>)
  {
    /** The length of the day every tour must fit into. */
    function TimeBudget(): int { endTime - startTime }
  }

  /** The visited ids of every tour, and the time recorded at each visit of each tour. */
  datatype Solution = Solution(tours: seq<seq<int>>, times: seq<seq<int>>)

  /** Every id visited in `tours` is a key of `table`. */
  ghost predicate AllKeyed<V>(tours: seq<seq<int>>, table: map<int, V>)
  {
    forall i, j :: 0 <= i < |tours| && 0 <= j < |tours[i]| ==> tours[i][j] in table
  }

  // ---------------------------------------------------------------- budget

  /** The summed cost of the visits of one tour. */
  function TourCost(tour: seq<int>, costs: map<int, int>): int
    requires forall j :: 0 <= j < |tour| ==> tour[j] in costs
  {
    if tour == [] then 0 else TourCost(tour[..|tour| - 1], costs) + costs[tour[|tour| - 1]]
  }

  /** The summed cost of every visit of every tour. */
  function TotalCost(tours: seq<seq<int>>, costs: map<int, int>): int
    requires AllKeyed(tours, costs)
  {
    if tours == [] then 0
    else TotalCost(tours[..|tours| - 1], costs) + TourCost(tours[|tours| - 1], costs)
  }

  /** Sums the cost of every visit and compares it with the cost budget; a visited id
      without a cost makes the dictionary lookup throw. */
  method IsBudgetValid(solution: Solution, metaData: MetaData) returns (r: Outcome)
    ensures !AllKeyed(solution.tours, metaData.costs) ==> r == Thrown(KeyNotFound)
    ensures AllKeyed(solution.tours, metaData.costs) ==>
              (r == Valid <==> TotalCost(solution.tours, metaData.costs) <= metaData.costBudget)
    ensures r != Invalid ==> r == Valid || !AllKeyed(solution.tours, metaData.costs)
  {
    var tours, costs := solution.tours, metaData.costs;
    var sum := 0;
    for i := 0 to |tours|
      invariant AllKeyed(tours[..i], costs)
      invariant sum == TotalCost(tours[..i], costs)
    {
      var tour := tours[i];
      var tourSum := 0;
      for j := 0 to |tour|
        invariant forall k :: 0 <= k < j ==> tour[k] in costs
        invariant tourSum == TourCost(tour[..j], costs)
      {
        if tour[j] !in costs {
          return Thrown(KeyNotFound);
        }
        assert tour[..j + 1][..j] == tour[..j];
        tourSum := tourSum + costs[tour[j]];
      }
      assert tour[..|tour|] == tour;
      assert tours[..i + 1][..i] == tours[..i];
      sum := sum + tourSum;
    }
    assert tours[..|tours|] == tours;
    r := if sum <= metaData.costBudget then Valid else Invalid;
  }

  /** Costs of consecutive groups of tours add up. */
  lemma {:induction false} TotalCostAppend(a: seq<seq<int>>, b: seq<seq<int>>, costs: map<int, int>)
    requires AllKeyed(a, costs) && AllKeyed(b, costs)
    ensures AllKeyed(a + b, costs)
    ensures TotalCost(a + b, costs) == TotalCost(a, costs) + TotalCost(b, costs)
  {
    if b != [] {
      assert (a + b)[..|a + b| - 1] == a + b[..|b| - 1];
      TotalCostAppend(a, b[..|b| - 1], costs);
    } else {
      assert a + b == a;
    }
  }

  /** The total cost does not depend on the order in which the tours are listed
      (the source keeps a tour's visits in a hash set). */
  lemma {:induction false} TotalCostSwapTours(tours: seq<seq<int>>, costs: map<int, int>, i: nat, j: nat)
    requires AllKeyed(tours, costs) && i < j < |tours|
    ensures AllKeyed(tours[i := tours[j]][j := tours[i]], costs)
    ensures TotalCost(tours[i := tours[j]][j := tours[i]], costs) == TotalCost(tours, costs)
  {
    var swapped := tours[i := tours[j]][j := tours[i]];
    var a, x, m, y, c := tours[..i], [tours[i]], tours[i + 1..j], [tours[j]], tours[j + 1..];
    assert tours == a + x + m + y + c;
    assert swapped == a + y + m + x + c;
    TotalCostAppend(a, x, costs);
    TotalCostAppend(a + x, m, costs);
    TotalCostAppend(a + x + m, y, costs);
    TotalCostAppend(a + x + m + y, c, costs);
    TotalCostAppend(a, y, costs);
    TotalCostAppend(a + y, m, costs);
    TotalCostAppend(a + y + m, x, costs);
    TotalCostAppend(a + y + m + x, c, costs);
    TotalCostSingle(tours[i], costs);
    TotalCostSingle(tours[j], costs);
  }

  /** A single tour costs what its visits cost. */
  lemma TotalCostSingle(tour: seq<int>, costs: map<int, int>)
    requires forall j :: 0 <= j < |tour| ==> tour[j] in costs
    ensures AllKeyed([tour], costs)
    ensures TotalCost([tour], costs) == TourCost(tour, costs)
  {
    assert [tour][..0] == [];
  }

  // ---------------------------------------------------------------- pattern

  /** The types of the visits of a tour, in visiting order. */
  function TypeSeq(tour: seq<int>, poiTypes: map<int, int>): (s: seq<int>)
    requires forall j :: 0 <= j < |tour| ==> tour[j] in poiTypes
    ensures |s| == |tour| && forall j :: 0 <= j < |tour| ==> s[j] == poiTypes[tour[j]]
  {
    seq(|tour|, j requires 0 <= j < |tour| => poiTypes[tour[j]])
  }

  /** `idx` picks the entries of `p` out of `s`, at strictly increasing positions. */
  ghost predicate Embeds(idx: seq<int>, p: seq<int>, s: seq<int>)
  {
    && |idx| == |p|
    && (forall k :: 0 <= k < |idx| ==> 0 <= idx[k] < |s| && s[idx[k]] == p[k])
    && (forall k :: 0 < k < |idx| ==> idx[k - 1] < idx[k])
  }

  /** `p` occurs in `s` in order, not necessarily contiguously. */
  ghost predicate IsSubsequence(p: seq<int>, s: seq<int>)
  {
    exists idx :: Embeds(idx, p, s)
  }

  /** The greedy scan of one tour: `index` entries of the pattern are matched; each
      visit whose type equals the next wanted entry advances it, and the scan stops
      as soon as the whole pattern is matched. None when a visited id has no type. */
  function Scan(tour: seq<int>, poiTypes: map<int, int>, pattern: seq<int>, index: nat): (n: Option<nat>)
    requires index < |pattern|
    ensures n.Some? ==> index <= n.value <= |pattern|
  {
    if tour == [] then Some(index)
    else if tour[0] !in poiTypes then None
    else if poiTypes[tour[0]] == pattern[index] then
      if index + 1 == |pattern| then Some(index + 1) else Scan(tour[1..], poiTypes, pattern, index + 1)
    else Scan(tour[1..], poiTypes, pattern, index)
  }

  /** On a fully typed tour the scan never throws. */
  lemma {:induction false} ScanTotal(tour: seq<int>, poiTypes: map<int, int>, pattern: seq<int>, index: nat)
    requires index < |pattern|
    requires forall j :: 0 <= j < |tour| ==> tour[j] in poiTypes
    ensures Scan(tour, poiTypes, pattern, index).Some?
  {
    if tour != [] && !(poiTypes[tour[0]] == pattern[index] && index + 1 == |pattern|) {
      ScanTotal(tour[1..], poiTypes, pattern, if poiTypes[tour[0]] == pattern[index] then index + 1 else index);
    }
  }

  /** A complete greedy match yields an embedding of the rest of the pattern. */
  lemma {:induction false} ScanSound(tour: seq<int>, poiTypes: map<int, int>, pattern: seq<int>, index: nat)
    returns (idx: seq<int>)
    requires index < |pattern|
    requires forall j :: 0 <= j < |tour| ==> tour[j] in poiTypes
    requires Scan(tour, poiTypes, pattern, index) == Some(|pattern|)
    ensures Embeds(idx, pattern[index..], TypeSeq(tour, poiTypes))
  {
    var s := TypeSeq(tour, poiTypes);
    assert tour != [];
    assert TypeSeq(tour[1..], poiTypes) == s[1..];
    if poiTypes[tour[0]] == pattern[index] {
      if index + 1 == |pattern| {
        idx := [0];
      } else {
        var rest := ScanSound(tour[1..], poiTypes, pattern, index + 1);
        assert pattern[index..][1..] == pattern[index + 1..];
        idx := EmbedsAddFirst(rest, pattern[index..], s);
      }
    } else {
      var rest := ScanSound(tour[1..], poiTypes, pattern, index);
      idx := EmbedsAddHead(rest, pattern[index..], s);
    }
  }

  /** An embedding of the rest of `p` in the tail of `s`, whose head is `p`'s first entry,
      extends to one of `p` in `s`. */
  lemma EmbedsAddFirst(rest: seq<int>, p: seq<int>, s: seq<int>) returns (idx: seq<int>)
    requires |p| >= 1 && |s| >= 1 && s[0] == p[0] && Embeds(rest, p[1..], s[1..])
    ensures Embeds(idx, p, s)
  {
    idx := [0] + seq(|rest|, k requires 0 <= k < |rest| => rest[k] + 1);
  }

  /** An embedding in the tail of `s` is one in `s`, one position further on. */
  lemma EmbedsAddHead(rest: seq<int>, p: seq<int>, s: seq<int>) returns (idx: seq<int>)
    requires |s| >= 1 && Embeds(rest, p, s[1..])
    ensures Embeds(idx, p, s)
  {
    idx := seq(|rest|, k requires 0 <= k < |rest| => rest[k] + 1);
  }

  /** Any embedding of the rest of the pattern makes the greedy scan match all of it. */
  lemma {:induction false} ScanComplete(tour: seq<int>, poiTypes: map<int, int>, pattern: seq<int>, index: nat, idx: seq<int>)
    requires index < |pattern|
    requires forall j :: 0 <= j < |tour| ==> tour[j] in poiTypes
    requires Embeds(idx, pattern[index..], TypeSeq(tour, poiTypes))
    ensures Scan(tour, poiTypes, pattern, index) == Some(|pattern|)
  {
    var s := TypeSeq(tour, poiTypes);
    assert idx[0] < |s| && s[idx[0]] == pattern[index];
    assert TypeSeq(tour[1..], poiTypes) == s[1..];
    if poiTypes[tour[0]] == pattern[index] {
      if index + 1 < |pattern| {
        var down := EmbedsDropFirst(idx, pattern[index..], s);
        assert pattern[index..][1..] == pattern[index + 1..];
        ScanComplete(tour[1..], poiTypes, pattern, index + 1, down);
      }
    } else {
      var shifted := EmbedsSkipHead(idx, pattern[index..], s);
      ScanComplete(tour[1..], poiTypes, pattern, index, shifted);
    }
  }

  /** Dropping the first matched entry leaves an embedding of the rest in the tail. */
  lemma EmbedsDropFirst(idx: seq<int>, p: seq<int>, s: seq<int>) returns (down: seq<int>)
    requires Embeds(idx, p, s) && |p| >= 1 && |s| >= 1
    ensures Embeds(down, p[1..], s[1..])
  {
    down := seq(|idx| - 1, k requires 0 <= k < |idx| - 1 => idx[k + 1] - 1);
    forall k | 0 <= k < |idx| - 1 ensures 0 <= down[k]
    {
      IncreasingFrom(idx, 0, k + 1);
    }
  }

  /** When the head of `s` is not the first wanted entry, the embedding avoids it. */
  lemma EmbedsSkipHead(idx: seq<int>, p: seq<int>, s: seq<int>) returns (shifted: seq<int>)
    requires Embeds(idx, p, s) && |p| >= 1 && |s| >= 1 && s[0] != p[0]
    ensures Embeds(shifted, p, s[1..])
  {
    shifted := seq(|idx|, k requires 0 <= k < |idx| => idx[k] - 1);
    forall k | 0 <= k < |idx| ensures 0 <= shifted[k]
    {
      if k > 0 { IncreasingFrom(idx, 0, k); }
    }
  }

  /** Strictly increasing neighbours make the whole sequence strictly increasing. */
  lemma {:induction false} IncreasingFrom(idx: seq<int>, a: nat, b: nat)
    requires forall k :: 0 < k < |idx| ==> idx[k - 1] < idx[k]
    requires a < b < |idx|
    ensures idx[a] < idx[b]
  {
    if a + 1 < b { IncreasingFrom(idx, a, b - 1); }
  }

  /** The greedy scan is exactly the subsequence test. */
  lemma GreedyIsSubsequence(tour: seq<int>, poiTypes: map<int, int>, pattern: seq<int>)
    requires pattern != []
    requires forall j :: 0 <= j < |tour| ==> tour[j] in poiTypes
    ensures (Scan(tour, poiTypes, pattern, 0) == Some(|pattern|))
              == IsSubsequence(pattern, TypeSeq(tour, poiTypes))
  {
    assert pattern[0..] == pattern;
    if Scan(tour, poiTypes, pattern, 0) == Some(|pattern|) {
      var idx := ScanSound(tour, poiTypes, pattern, 0);
    }
    if IsSubsequence(pattern, TypeSeq(tour, poiTypes)) {
      var idx :| Embeds(idx, pattern, TypeSeq(tour, poiTypes));
      ScanComplete(tour, poiTypes, pattern, 0, idx);
    }
  }

  /** The verdict of the pattern check from tour `i` on, in the order the source visits them. */
  function PatternFrom(tours: seq<seq<int>>, metaData: MetaData, i: nat): Outcome
    requires i <= |tours|
    decreases |tours| - i
  {
    if i == |tours| then Valid
    else if i !in metaData.patterns then Thrown(KeyNotFound)
    else if metaData.patterns[i] == [] then Thrown(IndexOutOfRange)
    else match Scan(tours[i], metaData.poiTypes, metaData.patterns[i], 0)
      case None => Thrown(KeyNotFound)
      case Some(n) => if n != |metaData.patterns[i]| then Invalid else PatternFrom(tours, metaData, i + 1)
  }

  /** Checks that every tour contains its pattern in order by one greedy scan per tour. */
  method IsPatternValid(solution: Solution, metaData: MetaData) returns (r: Outcome)
    ensures r == PatternFrom(solution.tours, metaData, 0)
  {
    var tours := solution.tours;
    for i := 0 to |tours|
      invariant PatternFrom(tours, metaData, 0) == PatternFrom(tours, metaData, i)
    {
      var tour := tours[i];
      if i !in metaData.patterns {
        return Thrown(KeyNotFound);
      }
      var pattern := metaData.patterns[i];
      if pattern == [] {
        return Thrown(IndexOutOfRange);
      }
      var index := 0;
      var curr := pattern[index];
      var j := 0;
      while j < |tour|
        invariant 0 <= j <= |tour| && 0 <= index < |pattern| && curr == pattern[index]
        invariant Scan(tour, metaData.poiTypes, pattern, 0) == Scan(tour[j..], metaData.poiTypes, pattern, index)
      {
        var item := tour[j];
        if item !in metaData.poiTypes {
          return Thrown(KeyNotFound);
        }
        assert tour[j..][1..] == tour[j + 1..];
        if metaData.poiTypes[item] == curr {
          index := index + 1;
          if index == |pattern| {
            break;
          }
          curr := pattern[index];
        }
        j := j + 1;
      }
      if index != |pattern| {
        return Invalid;
      }
    }
    r := Valid;
  }

  /** With every tour keyed and typed, the pattern check passes exactly when every tour's
      pattern is non-empty and occurs, in order, in the tour's type sequence. */
  lemma {:induction false} PatternValidIff(tours: seq<seq<int>>, metaData: MetaData, i: nat)
    requires i <= |tours|
    requires forall t :: 0 <= t < |tours| ==> t in metaData.patterns
    requires AllKeyed(tours, metaData.poiTypes)
    ensures PatternFrom(tours, metaData, i) == Valid <==>
              forall t :: i <= t < |tours| ==>
                metaData.patterns[t] != [] && IsSubsequence(metaData.patterns[t], TypeSeq(tours[t], metaData.poiTypes))
    decreases |tours| - i
  {
    if i < |tours| {
      PatternValidIff(tours, metaData, i + 1);
      var p := metaData.patterns[i];
      if p != [] {
        GreedyIsSubsequence(tours[i], metaData.poiTypes, p);
        ScanTotal(tours[i], metaData.poiTypes, p, 0);
      }
    }
  }

  /** A passing pattern check implies that every tour has a non-empty pattern: the scan
      reads the first pattern entry without checking the length. */
  lemma {:induction false} PatternValidNeedsPatterns(tours: seq<seq<int>>, metaData: MetaData, i: nat)
    requires i <= |tours|
    requires PatternFrom(tours, metaData, i) == Valid
    ensures forall t :: i <= t < |tours| ==> t in metaData.patterns && metaData.patterns[t] != []
    decreases |tours| - i
  {
    if i < |tours| {
      PatternValidNeedsPatterns(tours, metaData, i + 1);
    }
  }

  // ---------------------------------------------------------------- time

  /** The sum of the first `n` recorded times. */
  function SumTimes(times: seq<int>, n: nat): int
    requires n <= |times|
  {
    if n == 0 then 0 else SumTimes(times, n - 1) + times[n - 1]
  }

  /** The time check of one tour from visit `j` on, `acc` being the times summed so far:
      the working hours are looked up first, then the recorded time, then the duration. */
  function TimeTourFrom(tour: seq<int>, times: seq<int>, metaData: MetaData, j: nat, acc: int): Outcome
    requires j <= |tour|
    decreases |tour| - j
  {
    if j == |tour| then (if acc > metaData.TimeBudget() then Invalid else Valid)
    else
      var item := tour[j];
      if item !in metaData.workingHours then Thrown(KeyNotFound)
      else if j >= |times| then Thrown(IndexOutOfRange)
      else if item !in metaData.durations then Thrown(KeyNotFound)
      else if times[j] - metaData.durations[item] < metaData.workingHours[item].from
              || times[j] > metaData.workingHours[item].to then Invalid
      else TimeTourFrom(tour, times, metaData, j + 1, acc + times[j])
  }

  /** The time check from tour `i` on. */
  function TimeFrom(solution: Solution, metaData: MetaData, i: nat): Outcome
    requires i <= |solution.tours|
    decreases |solution.tours| - i
  {
    if i == |solution.tours| then Valid
    else if i >= |solution.times| then Thrown(IndexOutOfRange)
    else match TimeTourFrom(solution.tours[i], solution.times[i], metaData, 0, 0)
      case Valid => TimeFrom(solution, metaData, i + 1)
      case other => other
  }

  /** Checks every visit against its POI's working hours and every tour's summed times
      against the time budget. */
  method IsTimeValid(solution: Solution, metaData: MetaData) returns (r: Outcome)
    ensures r == TimeFrom(solution, metaData, 0)
  {
    var tours := solution.tours;
    for i := 0 to |tours|
      invariant TimeFrom(solution, metaData, 0) == TimeFrom(solution, metaData, i)
    {
      var tour := tours[i];
      if i >= |solution.times| {
        return Thrown(IndexOutOfRange);
      }
      var times := solution.times[i];
      var tourDuration := 0;
      for j := 0 to |tour|
        invariant TimeTourFrom(tour, times, metaData, 0, 0) == TimeTourFrom(tour, times, metaData, j, tourDuration)
      {
        var item := tour[j];
        if item !in metaData.workingHours {
          return Thrown(KeyNotFound);
        }
        var range := metaData.workingHours[item];
        if j >= |times| {
          return Thrown(IndexOutOfRange);
        }
        var timeSoFar := times[j];
        if item !in metaData.durations {
          return Thrown(KeyNotFound);
        }
        if timeSoFar - metaData.durations[item] < range.from || timeSoFar > range.to {
          return Invalid;
        }
        tourDuration := tourDuration + timeSoFar;
      }
      if tourDuration > metaData.TimeBudget() {
        return Invalid;
      }
    }
    r := Valid;
  }

  /** The visit at position `j` of a tour lies inside its POI's window: its recorded time
      minus the POI's duration is not before opening, and the recorded time not after closing. */
  ghost predicate VisitInWindow(tour: seq<int>, times: seq<int>, metaData: MetaData, j: int)
    requires 0 <= j < |tour| && j < |times|
    requires tour[j] in metaData.workingHours && tour[j] in metaData.durations
  {
    && times[j] - metaData.durations[tour[j]] >= metaData.workingHours[tour[j]].from
    && times[j] <= metaData.workingHours[tour[j]].to
  }

  /** Every table the time check reads has what it looks up. */
  ghost predicate TimeTablesComplete(solution: Solution, metaData: MetaData)
  {
    && |solution.times| >= |solution.tours|
    && (forall i :: 0 <= i < |solution.tours| ==> |solution.times[i]| >= |solution.tours[i]|)
    && AllKeyed(solution.tours, metaData.workingHours)
    && AllKeyed(solution.tours, metaData.durations)
  }

  lemma {:induction false} TimeTourValidIff(tour: seq<int>, times: seq<int>, metaData: MetaData, j: nat, acc: int)
    requires j <= |tour| <= |times|
    requires forall k :: 0 <= k < |tour| ==> tour[k] in metaData.workingHours && tour[k] in metaData.durations
    requires acc == SumTimes(times, j)
    ensures TimeTourFrom(tour, times, metaData, j, acc) != Valid ==> TimeTourFrom(tour, times, metaData, j, acc) == Invalid
    ensures TimeTourFrom(tour, times, metaData, j, acc) == Valid <==>
              (forall k :: j <= k < |tour| ==> VisitInWindow(tour, times, metaData, k))
              && SumTimes(times, |tour|) <= metaData.TimeBudget()
    decreases |tour| - j
  {
    if j < |tour| {
      TimeTourValidIff(tour, times, metaData, j + 1, acc + times[j]);
      var item := tour[j];
      assert VisitInWindow(tour, times, metaData, j) <==>
        !(times[j] - metaData.durations[item] < metaData.workingHours[item].from || times[j] > metaData.workingHours[item].to);
    }
  }

  /** With complete tables the time check never throws, and passes exactly when every
      visit lies inside its window and no tour's summed times exceed the time budget
      (only the first as many times as the tour has visits are summed). */
  lemma {:induction false} TimeValidIff(solution: Solution, metaData: MetaData, i: nat)
    requires i <= |solution.tours|
    requires TimeTablesComplete(solution, metaData)
    ensures TimeFrom(solution, metaData, i) != Valid ==> TimeFrom(solution, metaData, i) == Invalid
    ensures TimeFrom(solution, metaData, i) == Valid <==>
              forall t :: i <= t < |solution.tours| ==>
                (forall k :: 0 <= k < |solution.tours[t]| ==> VisitInWindow(solution.tours[t], solution.times[t], metaData, k))
                && SumTimes(solution.times[t], |solution.tours[t]|) <= metaData.TimeBudget()
    decreases |solution.tours| - i
  {
    if i < |solution.tours| {
      TimeValidIff(solution, metaData, i + 1);
      TimeTourValidIff(solution.tours[i], solution.times[i], metaData, 0, 0);
    }
  }

  // ---------------------------------------------------------------- per-type caps

  /** How often `key` is visited in `tour`. */
  function Occurrences(tour: seq<int>, key: int): nat
  {
    multiset(tour)[key]
  }

  /** The cap check of one tour as written: a counter per capped type, incremented with
      the visited POI id; an id that is not a capped type throws. */
  function MaxPoisTour(tour: seq<int>, maxPoisOfType: map<int, int>): Outcome
  {
    if exists j :: 0 <= j < |tour| && tour[j] !in maxPoisOfType then Thrown(KeyNotFound)
    else if exists key :: key in maxPoisOfType && maxPoisOfType[key] < Occurrences(tour, key) then Invalid
    else Valid
  }

  /** The cap check from tour `i` on: counters start afresh for every tour. */
  function MaxPoisFrom(tours: seq<seq<int>>, maxPoisOfType: map<int, int>, i: nat): Outcome
    requires i <= |tours|
    decreases |tours| - i
  {
    if i == |tours| then Valid
    else match MaxPoisTour(tours[i], maxPoisOfType)
      case Valid => MaxPoisFrom(tours, maxPoisOfType, i + 1)
      case other => other
  }

  /** The counters after the first `j` visits, keyed by capped type. */
  function Counters(tour: seq<int>, maxPoisOfType: map<int, int>, j: nat): map<int, int>
    requires j <= |tour|
  {
    map key | key in maxPoisOfType :: Occurrences(tour[..j], key)
  }

  /** One more visit of a capped type increments that type's counter only. */
  lemma CountersStep(tour: seq<int>, maxPoisOfType: map<int, int>, j: nat)
    requires j < |tour| && tour[j] in maxPoisOfType
    ensures Counters(tour, maxPoisOfType, j + 1)
      == Counters(tour, maxPoisOfType, j)[tour[j] := Counters(tour, maxPoisOfType, j)[tour[j]] + 1]
  {
    assert tour[..j + 1] == tour[..j] + [tour[j]];
  }

  /** Compares, for every tour, the counters against the caps (as written, the counters
      are indexed by the visited POI id). */
  method IsMaxPoisValid(solution: Solution, metaData: MetaData) returns (r: Outcome)
    ensures r == MaxPoisFrom(solution.tours, metaData.maxPoisOfType, 0)
  {
    var tours, maxPois := solution.tours, metaData.maxPoisOfType;
    for i := 0 to |tours|
      invariant MaxPoisFrom(tours, maxPois, 0) == MaxPoisFrom(tours, maxPois, i)
    {
      var counters := CountVisitsById(tours[i], maxPois);
      if counters.None? {
        return Thrown(KeyNotFound);
      }
      var exceeded := AnyCapExceeded(counters.value, maxPois);
      if exceeded {
        return Invalid;
      }
    }
    r := Valid;
  }

  /** The counting loop of one tour as written: one counter per capped type, each visit
      incrementing the counter named by its POI id; None when that counter does not exist. */
  method CountVisitsById(tour: seq<int>, maxPois: map<int, int>) returns (counters: Option<map<int, int>>)
    ensures counters.None? <==> exists j :: 0 <= j < |tour| && tour[j] !in maxPois
    ensures counters.Some? ==> counters.value == map key | key in maxPois :: Occurrences(tour, key)
  {
    var c := map key | key in maxPois :: 0;
    assert c == Counters(tour, maxPois, 0);
    for j := 0 to |tour|
      invariant forall k :: 0 <= k < j ==> tour[k] in maxPois
      invariant c == Counters(tour, maxPois, j)
    {
      var item := tour[j];
      if item !in c {
        return None;
      }
      CountersStep(tour, maxPois, j);
      c := c[item := c[item] + 1];
    }
    assert tour[..|tour|] == tour;
    return Some(c);
  }

  /** The final loop over the caps: whether some counter is above its cap. */
  method AnyCapExceeded(counters: map<int, int>, maxPois: map<int, int>) returns (exceeded: bool)
    requires counters.Keys == maxPois.Keys
    ensures exceeded <==> exists key :: key in maxPois && maxPois[key] < counters[key]
  {
    var keys := maxPois.Keys;
    while |keys| > 0
      invariant keys <= maxPois.Keys
      invariant forall key :: key in maxPois && key !in keys ==> counters[key] <= maxPois[key]
      decreases keys
    {
      if forall y :: y !in keys {
        assert false;
      }
      var x :| x in keys;
      if maxPois[x] < counters[x] {
        return true;
      }
      keys := keys - {x};
    }
    return false;
  }

  /** How many visits of `tour` have type `t`. */
  function TypeCount(tour: seq<int>, poiTypes: map<int, int>, t: int): nat
    requires forall j :: 0 <= j < |tour| ==> tour[j] in poiTypes
  {
    if tour == [] then 0
    else TypeCount(tour[..|tour| - 1], poiTypes, t) + (if poiTypes[tour[|tour| - 1]] == t then 1 else 0)
  }

  /** The cap check of one tour with the counters indexed by the visited POI's type. */
  function MaxTypesTour(tour: seq<int>, poiTypes: map<int, int>, maxPoisOfType: map<int, int>): Outcome
  {
    if exists j :: 0 <= j < |tour| && (tour[j] !in poiTypes || poiTypes[tour[j]] !in maxPoisOfType)
    then Thrown(KeyNotFound)
    else if exists t :: t in maxPoisOfType && maxPoisOfType[t] < TypeCount(tour, poiTypes, t) then Invalid
    else Valid
  }

  function MaxTypesFrom(tours: seq<seq<int>>, metaData: MetaData, i: nat): Outcome
    requires i <= |tours|
    decreases |tours| - i
  {
    if i == |tours| then Valid
    else match MaxTypesTour(tours[i], metaData.poiTypes, metaData.maxPoisOfType)
      case Valid => MaxTypesFrom(tours, metaData, i + 1)
      case other => other
  }

  /** The per-type cap check as intended: counters indexed by the type of each visit. */
  method IsMaxPoisOfTypeValid(solution: Solution, metaData: MetaData) returns (r: Outcome)
    ensures r == MaxTypesFrom(solution.tours, metaData, 0)
  {
    var tours, maxPois := solution.tours, metaData.maxPoisOfType;
    for i := 0 to |tours|
      invariant MaxTypesFrom(tours, metaData, 0) == MaxTypesFrom(tours, metaData, i)
    {
      var counters := CountVisitsByType(tours[i], metaData.poiTypes, maxPois);
      if counters.None? {
        return Thrown(KeyNotFound);
      }
      var exceeded := AnyCapExceeded(counters.value, maxPois);
      if exceeded {
        return Invalid;
      }
    }
    r := Valid;
  }

  /** The counting loop with each visit incrementing the counter of its POI's type. */
  method CountVisitsByType(tour: seq<int>, poiTypes: map<int, int>, maxPois: map<int, int>)
    returns (counters: Option<map<int, int>>)
    ensures counters.None? <==>
              exists j :: 0 <= j < |tour| && (tour[j] !in poiTypes || poiTypes[tour[j]] !in maxPois)
    ensures counters.Some? ==> counters.value == map t | t in maxPois :: TypeCount(tour, poiTypes, t)
  {
    var c := map t | t in maxPois :: 0;
    for j := 0 to |tour|
      invariant forall k :: 0 <= k < j ==> tour[k] in poiTypes && poiTypes[tour[k]] in maxPois
      invariant c == map t | t in maxPois :: TypeCount(tour[..j], poiTypes, t)
    {
      var item := tour[j];
      if item !in poiTypes || poiTypes[item] !in c {
        return None;
      }
      assert tour[..j + 1][..j] == tour[..j];
      c := c[poiTypes[item] := c[poiTypes[item]] + 1];
    }
    assert tour[..|tour|] == tour;
    return Some(c);
  }

  /** With every visit typed and every type capped, the corrected check passes exactly
      when no tour visits any type more often than its cap. */
  lemma {:induction false} MaxTypesValidIff(tours: seq<seq<int>>, metaData: MetaData, i: nat)
    requires i <= |tours|
    requires forall t, j :: 0 <= t < |tours| && 0 <= j < |tours[t]| ==>
               tours[t][j] in metaData.poiTypes && metaData.poiTypes[tours[t][j]] in metaData.maxPoisOfType
    ensures MaxTypesFrom(tours, metaData, i) != Thrown(KeyNotFound)
    ensures MaxTypesFrom(tours, metaData, i) == Valid <==>
              forall t, ty :: i <= t < |tours| && ty in metaData.maxPoisOfType ==>
                TypeCount(tours[t], metaData.poiTypes, ty) <= metaData.maxPoisOfType[ty]
    decreases |tours| - i
  {
    if i < |tours| {
      MaxTypesValidIff(tours, metaData, i + 1);
    }
  }

  /** The check as written rejects a tour of two distinct POIs of one type capped at one
      visit only by throwing, because the POI ids are not capped types; the corrected
      check reports the exceeded cap. */
  lemma MaxPoisCountsIdsNotTypes()
    ensures var md := MetaData(0, map[], 0, 0, map[], map[], map[5 := 1, 6 := 1], map[1 := 1], map[]);
            && MaxPoisFrom([[5, 6]], md.maxPoisOfType, 0) == Thrown(KeyNotFound)
            && MaxTypesFrom([[5, 6]], md, 0) == Invalid
  {
    var md := MetaData(0, map[], 0, 0, map[], map[], map[5 := 1, 6 := 1], map[1 := 1], map[]);
    var tour := [5, 6];
    assert tour[0] !in md.maxPoisOfType;
    assert TypeCount(tour, md.poiTypes, 1) == 2 by {
      assert tour[..1] == [5];
      assert tour[..1][..0] == [];
    }
  }

  /** When POI ids happen to coincide with capped types, the check as written judges the
      wrong counter: visiting POI 1 (of type 2, cap 5) once fails against the cap of type 1. */
  lemma MaxPoisWrongCounter()
    ensures var md := MetaData(0, map[], 0, 0, map[], map[], map[1 := 2], map[1 := 0, 2 := 5], map[]);
            && MaxPoisFrom([[1]], md.maxPoisOfType, 0) == Invalid
            && MaxTypesFrom([[1]], md, 0) == Valid
  {
    var md := MetaData(0, map[], 0, 0, map[], map[], map[1 := 2], map[1 := 0, 2 := 5], map[]);
    assert Occurrences([1], 1) == 1;
    assert [1][..0] == [];
    assert TypeCount([1], md.poiTypes, 1) == 0;
    assert TypeCount([1], md.poiTypes, 2) == 1;
  }

  // ---------------------------------------------------------------- all checks

  /** Runs the four checks in the order budget, pattern, time, caps, and stops at the first
      that does not pass (returning false or throwing). */
  method IsValid(solution: Solution, metaData: MetaData) returns (r: Outcome)
    ensures var b := if !AllKeyed(solution.tours, metaData.costs) then Thrown(KeyNotFound)
                     else if TotalCost(solution.tours, metaData.costs) <= metaData.costBudget then Valid
                     else Invalid;
            var p := PatternFrom(solution.tours, metaData, 0);
            var t := TimeFrom(solution, metaData, 0);
            var m := MaxPoisFrom(solution.tours, metaData.maxPoisOfType, 0);
            && (r == Valid <==> b == Valid && p == Valid && t == Valid && m == Valid)
            && (b != Valid ==> r == b)
            && (b == Valid && p != Valid ==> r == p)
            && (b == Valid && p == Valid && t != Valid ==> r == t)
            && (b == Valid && p == Valid && t == Valid ==> r == m)
  {
    r := IsBudgetValid(solution, metaData);
    if r != Valid { return; }
    r := IsPatternValid(solution, metaData);
    if r != Valid { return; }
    r := IsTimeValid(solution, metaData);
    if r != Valid { return; }
    r := IsMaxPoisValid(solution, metaData);
  }
}
