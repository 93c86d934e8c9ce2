/**
 * The perturbation moves of the simulated-annealing driver: `SwapPivots`, `RemoveRandom`
 * and `InsertRandom`, with the pivot slots they consult. A tour's pivots are one slot per
 * pattern type, each holding that type's candidates in score order with exactly one of
 * them flagged as the selected pivot. Each random draw `d` standing for
 * `rand.Next(0, n)` is taken as the choice `d % n`.
 */
module AnnealingMoves {
  import opened Wrappers
  import opened Annealing

  /** The exceptions these moves can raise. */
  datatype Fault = ArgumentOutOfRange

  /** A pivot candidate (`SelectedPoi`): a POI id and its `IsSelected` flag. */
  datatype Candidate = Candidate(id: int, selected: bool)

  /** One pattern type of a tour (a dictionary entry of `P[i]`) with its candidates. */
  datatype Slot = Slot(key: int, candidates: seq<Candidate>)

  /** The draws of one swap try: which slot, then the replacement draws. */
  datatype Attempt = Attempt(slot: nat, replace: seq<nat>)

  // ---------------------------------------------------------------- selection flags

  /** Candidate `j`, and no other, is selected. */
  predicate SelectedAt(c: seq<Candidate>, j: int)
  {
    0 <= j < |c| && forall k :: 0 <= k < |c| ==> (c[k].selected <==> k == j)
  }

  /** At most one index is the selected one. */
  lemma SelectedUnique(c: seq<Candidate>, i: int)
    requires SelectedAt(c, i)
    ensures forall j :: SelectedAt(c, j) ==> j == i
  {
    forall j | SelectedAt(c, j)
      ensures j == i
    {
      assert c[i].selected;
    }
  }

  predicate OneSelected(slot: Slot)
  {
    exists j :: 0 <= j < |slot.candidates| && SelectedAt(slot.candidates, j)
  }

  predicate AllOneSelected(slots: seq<Slot>)
  {
    forall k :: 0 <= k < |slots| ==> OneSelected(slots[k])
  }

  /** Two slot lists with the same keys and candidate ids; only flags may differ. */
  predicate SameShape(a: seq<Slot>, b: seq<Slot>)
  {
    |a| == |b|
    && forall k :: 0 <= k < |a| ==>
         a[k].key == b[k].key && |a[k].candidates| == |b[k].candidates|
         && forall j :: 0 <= j < |a[k].candidates| ==> a[k].candidates[j].id == b[k].candidates[j].id
  }

  /** The slot built by `GenerateInitialSolution` (lines 228-240): candidate `j` is
      flagged when it is the one `select` points at. */
  function BuildSlot(key: int, ids: seq<int>, select: int): (slot: Slot)
    ensures slot.key == key && |slot.candidates| == |ids|
    ensures forall j :: 0 <= j < |ids| ==> slot.candidates[j].id == ids[j]
  {
    Slot(key, seq(|ids|, j requires 0 <= j < |ids| => Candidate(ids[j], select == j)))
  }

  /** A built slot has exactly one selected candidate iff `select` is a valid index; the
      backtracking that moves `select` past the last candidate leaves none selected. */
  lemma BuildSlotOneSelected(key: int, ids: seq<int>, select: int)
    ensures OneSelected(BuildSlot(key, ids, select)) <==> 0 <= select < |ids|
  {
    var c := BuildSlot(key, ids, select).candidates;
    if 0 <= select < |ids| {
      assert SelectedAt(c, select);
    } else {
      forall j | 0 <= j < |c|
        ensures !SelectedAt(c, j)
      {
        assert c[j] == Candidate(ids[j], select == j);
      }
    }
  }

  /** `FindIndex(p => p.IsSelected)`: the first selected candidate, or -1. */
  function FindSelected(c: seq<Candidate>): (k: int)
    ensures -1 <= k < |c|
    ensures k >= 0 ==> c[k].selected && forall j :: 0 <= j < k ==> !c[j].selected
    ensures k == -1 ==> forall j :: 0 <= j < |c| ==> !c[j].selected
  {
    if c == [] then -1
    else if c[0].selected then 0
    else
      var k := FindSelected(c[1..]);
      if k == -1 then -1 else k + 1
  }

  /** The flags after a successful swap (lines 438-439 and 457-458): the old pivot is
      cleared, then the new one set. */
  function Reselect(c: seq<Candidate>, from: nat, to: nat): seq<Candidate>
    requires from < |c| && to < |c|
  {
    var cleared := c[from := c[from].(selected := false)];
    cleared[to := cleared[to].(selected := true)]
  }

  /** Moving the flag keeps the ids and leaves exactly the new pivot selected. */
  lemma ReselectMovesFlag(c: seq<Candidate>, from: nat, to: nat)
    requires SelectedAt(c, from) && to < |c|
    ensures |Reselect(c, from, to)| == |c|
    ensures forall j :: 0 <= j < |c| ==> Reselect(c, from, to)[j].id == c[j].id
    ensures SelectedAt(Reselect(c, from, to), to)
  {
  }

  // ---------------------------------------------------------------- the replacement draw

  /** The re-roll loop of `SwapPivots` (lines 405-407) as written: draw until the drawn
      index differs from the selected one. `None` means the draws ran out with the loop
      still running. */
  function Reroll(count: nat, draws: seq<nat>, selected: int): Option<nat>
    requires count >= 1
  {
    if draws == [] then None
    else if draws[0] % count != selected then Some(draws[0] % count)
    else Reroll(count, draws[1..], selected)
  }

  /** With a single candidate, which is then the selected one, every draw repeats it: no
      sequence of draws, however long, ends the loop. */
  lemma {:induction false} RerollSingleCandidate(draws: seq<nat>)
    ensures Reroll(1, draws, 0) == None
  {
    if draws != [] {
      RerollSingleCandidate(draws[1..]);
    }
  }

  /** The replacement pick with a slot of fewer than two candidates skipped, since there
      is nothing to swap to. */
  function PickReplacement(count: nat, selected: int, draws: seq<nat>): Option<nat>
  {
    if count < 2 then None else Reroll(count, draws, selected)
  }

  /** A pick is always a different candidate of the slot. */
  lemma {:induction false} PickReplacementSound(count: nat, selected: int, draws: seq<nat>)
    ensures PickReplacement(count, selected, draws).Some? ==>
              PickReplacement(count, selected, draws).value < count
              && PickReplacement(count, selected, draws).value != selected
  {
    if count >= 2 && draws != [] && draws[0] % count == selected {
      PickReplacementSound(count, selected, draws[1..]);
    }
  }

  /** With two or more candidates, the first draw landing elsewhere ends the loop. */
  lemma {:induction false} PickReplacementFinds(count: nat, selected: int, draws: seq<nat>, k: nat)
    requires count >= 2 && k < |draws| && draws[k] % count != selected
    ensures PickReplacement(count, selected, draws).Some?
  {
    if draws[0] % count == selected {
      PickReplacementFinds(count, selected, draws[1..], k - 1);
    }
  }

  // ---------------------------------------------------------------- lookups

  /** `List.FindIndex` for an id: the first position holding `x`, or -1. */
  function IndexOf(xs: seq<int>, x: int): (k: int)
    ensures -1 <= k < |xs|
    ensures k >= 0 ==> xs[k] == x && x !in xs[..k]
    ensures k == -1 ==> x !in xs
  {
    if xs == [] then -1
    else if xs[0] == x then 0
    else
      var k := IndexOf(xs[1..], x);
      assert k >= 0 ==> xs[..k + 1] == [xs[0]] + xs[1..][..k];
      if k == -1 then -1 else k + 1
  }

  /** `Q.FindIndex(p => p.Id == id)`. */
  function IndexInPool(q: seq<PoolPoi>, id: int): (k: int)
    ensures -1 <= k < |q|
    ensures k >= 0 ==> q[k].id == id && forall j :: 0 <= j < k ==> q[j].id != id
    ensures k == -1 ==> forall j :: 0 <= j < |q| ==> q[j].id != id
  {
    if q == [] then -1
    else if q[0].id == id then 0
    else
      var k := IndexInPool(q[1..], id);
      if k == -1 then -1 else k + 1
  }

  /** `S.Pois[tour]`; the oracle keeps its tour count, so the empty fallback is never
      reached by a real solution. */
  function TourOf<S>(o: Oracle<S>, s: S, tour: int): seq<int>
  {
    if 0 <= tour < |o.tours(s)| then o.tours(s)[tour] else []
  }

  /** The search for the replacement in `S` (lines 415-428): the first occurrence of `id`
      in tour-major order, or (-1, -1). */
  method Locate(tours: seq<seq<int>>, id: int) returns (tour: int, index: int)
    ensures tour >= 0 ==> tour < |tours| && 0 <= index < |tours[tour]| && tours[tour][index] == id
    ensures tour >= 0 ==> forall t, p :: 0 <= t < |tours| && 0 <= p < |tours[t]| && Before(t, p, tour, index) ==>
                            tours[t][p] != id
    ensures tour < 0 ==> tour == -1 && index == -1
    ensures tour < 0 ==> forall t, p :: 0 <= t < |tours| && 0 <= p < |tours[t]| ==> tours[t][p] != id
  {
    for m := 0 to |tours|
      invariant forall t, p :: 0 <= t < m && 0 <= p < |tours[t]| ==> tours[t][p] != id
    {
      for n := 0 to |tours[m]|
        invariant forall p :: 0 <= p < n ==> tours[m][p] != id
      {
        if tours[m][n] == id {
          return m, n;
        }
      }
    }
    return -1, -1;
  }

  // ---------------------------------------------------------------- SwapPivots

  /** Moving the flag of slot `si` from `from` to `to` keeps every slot's keys and ids,
      keeps one selected candidate per slot, changes the list and no other slot. */
  lemma FlipKeepsShape(slots: seq<Slot>, si: nat, from: nat, to: nat)
    requires AllOneSelected(slots) && si < |slots|
    requires SelectedAt(slots[si].candidates, from) && to < |slots[si].candidates| && to != from
    ensures var flipped := slots[si := Slot(slots[si].key, Reselect(slots[si].candidates, from, to))];
      SameShape(slots, flipped) && AllOneSelected(flipped) && flipped != slots
      && forall k :: 0 <= k < |slots| && k != si ==> flipped[k] == slots[k]
  {
    var c := slots[si].candidates;
    ReselectMovesFlag(c, from, to);
    var flipped := slots[si := Slot(slots[si].key, Reselect(c, from, to))];
    assert flipped[si].candidates[to].selected && !slots[si].candidates[to].selected;
    assert OneSelected(flipped[si]);
  }

  /** An id no position of the tours holds is in no tour. */
  lemma NotInSomeTour(tours: seq<seq<int>>, id: int)
    requires forall t, p :: 0 <= t < |tours| && 0 <= p < |tours[t]| ==> tours[t][p] != id
    ensures !InSomeTour(id, tours)
  {
    forall t | 0 <= t < |tours| ensures id !in tours[t] {
      forall p | 0 <= p < |tours[t]| ensures tours[t][p] != id { }
    }
  }

  /** A slot list has its own shape. */
  lemma SameShapeItself(slots: seq<Slot>)
    ensures SameShape(slots, slots)
  {
  }

  /** One try of the inner loop of `SwapPivots` (lines 400-460) on tour `tour` with pivot
      slots `slots`. The replacement, when it sits in `S`, is taken out and put in the old
      pivot's place (undone if the insert fails); otherwise it is swapped in from the pool.
      Either way a success returns the old pivot to the pool and moves the flag. */
  method SwapPivot<S>(o: Oracle<S>, s: S, q: seq<PoolPoi>, slots: seq<Slot>, tour: int, attempt: Attempt)
    returns (r: Result<(S, seq<PoolPoi>, seq<Slot>), Fault>)
    requires AllOneSelected(slots)
    ensures |slots| == 0 ==> r == Err(ArgumentOutOfRange)
    ensures r.Ok? ==> |slots| > 0 && SameShape(slots, r.value.2) && AllOneSelected(r.value.2)
    ensures r.Ok? ==> forall k :: 0 <= k < |slots| && k != attempt.slot % |slots| ==> r.value.2[k] == slots[k]
    ensures r.Ok? && r.value.2 == slots ==> r.value.1 == q
    ensures r.Ok? && r.value.2 != slots ==>
              forall j :: SelectedAt(slots[attempt.slot % |slots|].candidates, j) ==>
                |r.value.1| >= 1 && r.value.1[|r.value.1| - 1] == o.poiIndex(slots[attempt.slot % |slots|].candidates[j].id)
    ensures |slots| > 0 && |slots[attempt.slot % |slots|].candidates| < 2 ==> r == Ok((s, q, slots))
    ensures r.Ok? && r.value.2 != slots ==>
              var c := slots[attempt.slot % |slots|].candidates;
              var from := FindSelected(c);
              var to := PickReplacement(|c|, from, attempt.replace);
              0 <= from && to.Some? && to.value < |c| && to.value != from
              && r.value.2[attempt.slot % |slots|] == Slot(slots[attempt.slot % |slots|].key, Reselect(c, from, to.value))
              && SelectedAt(r.value.2[attempt.slot % |slots|].candidates, to.value)
              && (InSomeTour(c[to.value].id, o.tours(s)) ==> r.value.1 == q + [o.poiIndex(c[from].id)])
              && (!InSomeTour(c[to.value].id, o.tours(s)) ==>
                    IndexInPool(q, c[to.value].id) >= 0
                    && r.value.1 == RemoveAt(q, IndexInPool(q, c[to.value].id)) + [o.poiIndex(c[from].id)])
  {
    if |slots| == 0 {
      return Err(ArgumentOutOfRange);
    }
    var si := attempt.slot % |slots|;
    var slot := slots[si];
    var selected := FindSelected(slot.candidates);
    assert OneSelected(slot);
    var only :| 0 <= only < |slot.candidates| && SelectedAt(slot.candidates, only);
    assert slot.candidates[only].selected;
    assert slot.candidates[selected].selected;
    SelectedUnique(slot.candidates, only);
    assert selected == only;
    PickReplacementSound(|slot.candidates|, selected, attempt.replace);
    var pick := PickReplacement(|slot.candidates|, selected, attempt.replace);
    if pick.None? {
      return Ok((s, q, slots));
    }
    var replace := pick.value;
    var oldPivot := slot.candidates[selected];
    var newPivot := slot.candidates[replace];
    ReselectMovesFlag(slot.candidates, selected, replace);
    var flipped := slots[si := Slot(slot.key, Reselect(slot.candidates, selected, replace))];
    FlipKeepsShape(slots, si, selected, replace);
    SameShapeItself(slots);
    var res := ExchangePivot(o, s, q, tour, slot.key, oldPivot.id, newPivot.id);
    if res.Err? {
      r := Err(res.error);
    } else if res.value.2 {
      r := Ok((res.value.0, res.value.1, flipped));
    } else {
      r := Ok((res.value.0, q, slots));
    }
  }

  /** The exchange itself (lines 409-457): a replacement found in some tour is taken out
      there and put in the old pivot's place, and the removals are undone when that insert
      fails; a replacement from the pool is swapped in and leaves the pool. The flag in the
      result says whether the exchange took place; when it did, the old pivot joins the
      pool at the end. */
  method ExchangePivot<S>(o: Oracle<S>, s: S, q: seq<PoolPoi>, tour: int, key: int, oldId: int, newId: int)
    returns (r: Result<(S, seq<PoolPoi>, bool), Fault>)
    ensures r.Ok? && !r.value.2 ==> r.value.1 == q
    ensures r.Ok? && r.value.2 && InSomeTour(newId, o.tours(s)) ==> r.value.1 == q + [o.poiIndex(oldId)]
    ensures r.Ok? && r.value.2 && !InSomeTour(newId, o.tours(s)) ==>
              IndexInPool(q, newId) >= 0 && r.value.1 == RemoveAt(q, IndexInPool(q, newId)) + [o.poiIndex(oldId)]
    ensures r.Err? ==> r.error == ArgumentOutOfRange && !InSomeTour(newId, o.tours(s)) && IndexInPool(q, newId) < 0
  {
    var selectedInS := IndexOf(TourOf(o, s, tour), oldId);
    var replaceTour, replaceIndex := Locate(o.tours(s), newId);
    if replaceTour >= 0 {
      assert newId in o.tours(s)[replaceTour];
    } else {
      NotInSomeTour(o.tours(s), newId);
    }
    if replaceTour >= 0 && replaceIndex >= 0 {
      var replaceType := o.poiType(s, newId);
      var s1 := o.remove(s, replaceIndex, replaceTour).1;
      s1 := o.remove(s1, selectedInS, tour).1;
      var res := o.insert(s1, newId, key, selectedInS, tour);
      if res.0 {
        r := Ok((res.1, q + [o.poiIndex(oldId)], true));
      } else {
        var s2 := o.insert(res.1, oldId, key, selectedInS, tour).1;
        s2 := o.insert(s2, newId, replaceType, replaceIndex, replaceTour).1;
        r := Ok((s2, q, false));
      }
    } else {
      var inQ := IndexInPool(q, newId);
      var res := o.swap(s, newId, key, selectedInS, tour);
      if !res.0 {
        r := Ok((res.1, q, false));
      } else if inQ < 0 {
        r := Err(ArgumentOutOfRange);
      } else {
        r := Ok((res.1, RemoveAt(q, inQ) + [o.poiIndex(oldId)], true));
      }
    }
  }

  /** `SwapPivots`: every tour makes its tries in turn (`attempts[i]` holds tour `i`'s,
      between one and four in the source). Each slot keeps exactly one selected candidate
      and its keys and ids. */
  method SwapPivots<S>(o: Oracle<S>, s0: S, q0: seq<PoolPoi>, pivots: seq<seq<Slot>>, attempts: seq<seq<Attempt>>)
    returns (r: Result<(S, seq<PoolPoi>, seq<seq<Slot>>), Fault>)
    requires |attempts| == |pivots|
    requires forall i :: 0 <= i < |pivots| ==> AllOneSelected(pivots[i])
    ensures r.Ok? ==> |r.value.2| == |pivots|
    ensures r.Ok? ==> forall i :: 0 <= i < |pivots| ==>
                        SameShape(pivots[i], r.value.2[i]) && AllOneSelected(r.value.2[i])
  {
    var s, q, p := s0, q0, pivots;
    for i := 0 to |pivots|
      invariant |p| == |pivots|
      invariant forall t :: 0 <= t < |pivots| ==> SameShape(pivots[t], p[t]) && AllOneSelected(p[t])
    {
      for k := 0 to |attempts[i]|
        invariant |p| == |pivots|
        invariant forall t :: 0 <= t < |pivots| ==> SameShape(pivots[t], p[t]) && AllOneSelected(p[t])
      {
        var step := SwapPivot(o, s, q, p[i], i, attempts[i][k]);
        if step.Err? {
          return Err(step.error);
        }
        s, q := step.value.0, step.value.1;
        SameShapeTrans(pivots[i], p[i], step.value.2);
        p := p[i := step.value.2];
      }
    }
    r := Ok((s, q, p));
  }

  lemma SameShapeTrans(a: seq<Slot>, b: seq<Slot>, c: seq<Slot>)
    requires SameShape(a, b) && SameShape(b, c)
    ensures SameShape(a, c)
  {
  }

  // ---------------------------------------------------------------- RemoveRandom

  /** The slot has a selected candidate, so `Find(x => x.IsSelected)` is not null. */
  predicate HasPivot(slot: Slot)
  {
    FindSelected(slot.candidates) >= 0
  }

  predicate AllHavePivots(pivots: seq<seq<Slot>>)
  {
    forall t, k :: 0 <= t < |pivots| && 0 <= k < |pivots[t]| ==> HasPivot(pivots[t][k])
  }

  /** The id of a slot's selected pivot. */
  function PivotOf(slot: Slot): int
    requires HasPivot(slot)
  {
    slot.candidates[FindSelected(slot.candidates)].id
  }

  /** A slot with exactly one selected candidate has a pivot, namely that candidate. */
  lemma OneSelectedHasPivot(slot: Slot, j: nat)
    requires SelectedAt(slot.candidates, j)
    ensures HasPivot(slot) && PivotOf(slot) == slot.candidates[j].id
  {
    assert slot.candidates[j].selected;
  }

  function SlotPivots(slots: seq<Slot>): (ids: seq<int>)
    requires forall k :: 0 <= k < |slots| ==> HasPivot(slots[k])
  {
    if slots == [] then [] else SlotPivots(slots[..|slots| - 1]) + [PivotOf(slots[|slots| - 1])]
  }

  /** The pivot ids `RemoveRandom` collects, tour after tour and slot after slot. */
  function PivotIds(pivots: seq<seq<Slot>>): seq<int>
    requires AllHavePivots(pivots)
  {
    if pivots == [] then [] else PivotIds(pivots[..|pivots| - 1]) + SlotPivots(pivots[|pivots| - 1])
  }

  lemma {:induction false} SlotPivotsMeaning(slots: seq<Slot>, x: int)
    requires forall k :: 0 <= k < |slots| ==> HasPivot(slots[k])
    ensures x in SlotPivots(slots) <==> exists k :: 0 <= k < |slots| && PivotOf(slots[k]) == x
  {
    if slots != [] {
      SlotPivotsMeaning(slots[..|slots| - 1], x);
      if x in SlotPivots(slots[..|slots| - 1]) {
        var k :| 0 <= k < |slots| - 1 && PivotOf(slots[..|slots| - 1][k]) == x;
        assert PivotOf(slots[k]) == x;
      }
    }
  }

  /** An id is collected exactly when it is the selected pivot of some slot of some tour. */
  lemma {:induction false} PivotIdsMeaning(pivots: seq<seq<Slot>>, x: int)
    requires AllHavePivots(pivots)
    ensures x in PivotIds(pivots) <==>
              exists t, k :: 0 <= t < |pivots| && 0 <= k < |pivots[t]| && PivotOf(pivots[t][k]) == x
  {
    if pivots != [] {
      var last := |pivots| - 1;
      PivotIdsMeaning(pivots[..last], x);
      SlotPivotsMeaning(pivots[last], x);
      assert PivotIds(pivots) == PivotIds(pivots[..last]) + SlotPivots(pivots[last]);
      if exists t, k :: 0 <= t < |pivots| && 0 <= k < |pivots[t]| && PivotOf(pivots[t][k]) == x {
        var t, k :| 0 <= t < |pivots| && 0 <= k < |pivots[t]| && PivotOf(pivots[t][k]) == x;
        if t < last {
          assert pivots[..last][t] == pivots[t];
          assert x in PivotIds(pivots[..last]);
        } else {
          assert 0 <= k < |pivots[last]| && PivotOf(pivots[last][k]) == x;
        }
      }
      if x in PivotIds(pivots[..last]) {
        var t, k :| 0 <= t < last && 0 <= k < |pivots[..last][t]| && PivotOf(pivots[..last][t][k]) == x;
        assert PivotOf(pivots[t][k]) == x;
      }
      if x in SlotPivots(pivots[last]) {
        var k :| 0 <= k < |pivots[last]| && PivotOf(pivots[last][k]) == x;
        assert PivotOf(pivots[last][k]) == x;
      }
    }
  }

  /** `list` holds exactly the ids of `tour` that are not in `selected`. */
  ghost predicate Unpinned(list: seq<int>, tour: seq<int>, selected: seq<int>)
  {
    forall x :: x in list <==> x in tour && x !in selected
  }

  /** Every id of `list` is an id of `tour` outside `selected`. */
  ghost predicate Within(list: seq<int>, tour: seq<int>, selected: seq<int>)
  {
    forall x :: x in list ==> x in tour && x !in selected
  }

  ghost predicate InSomeTour(x: int, tours: seq<seq<int>>)
  {
    exists t :: 0 <= t < |tours| && x in tours[t]
  }

  /** The ids of `tour` that are not in `selected`, in tour order and with their
      repeats. */
  function NotIn(tour: seq<int>, selected: seq<int>): seq<int>
    decreases |tour|
  {
    if tour == [] then []
    else NotIn(tour[..|tour| - 1], selected) + (if tour[|tour| - 1] in selected then [] else [tour[|tour| - 1]])
  }

  /** The filtered list holds exactly the unselected ids, and no more entries than the
      tour. */
  lemma {:induction false} NotInMeaning(tour: seq<int>, selected: seq<int>)
    ensures Unpinned(NotIn(tour, selected), tour, selected)
    ensures |NotIn(tour, selected)| <= |tour|
    ensures (forall x :: x in tour ==> x !in selected) ==> NotIn(tour, selected) == tour
    decreases |tour|
  {
    if tour != [] {
      var init := tour[..|tour| - 1];
      NotInMeaning(init, selected);
      assert tour == init + [tour[|tour| - 1]];
      if forall x :: x in tour ==> x !in selected {
        assert forall x :: x in init ==> x in tour;
      }
    }
  }

  /** The lists of non-pivot POIs `RemoveRandom` draws from (lines 337-348): each tour's
      ids, in order, without the selected pivots. */
  method UnpinnedLists(tours: seq<seq<int>>, selected: seq<int>) returns (lists: seq<seq<int>>)
    ensures |lists| == |tours|
    ensures forall t :: 0 <= t < |tours| ==> lists[t] == NotIn(tours[t], selected)
    ensures forall t :: 0 <= t < |tours| ==> Unpinned(lists[t], tours[t], selected)
  {
    lists := [];
    for i := 0 to |tours|
      invariant |lists| == i
      invariant forall t :: 0 <= t < i ==> lists[t] == NotIn(tours[t], selected)
      invariant forall t :: 0 <= t < i ==> Unpinned(lists[t], tours[t], selected)
    {
      var list: seq<int> := [];
      for j := 0 to |tours[i]|
        invariant list == NotIn(tours[i][..j], selected)
      {
        assert tours[i][..j + 1][..j] == tours[i][..j];
        if tours[i][j] !in selected {
          list := list + [tours[i][j]];
        } else {
          assert list + [] == list;
        }
      }
      assert tours[i][..|tours[i]|] == tours[i];
      NotInMeaning(tours[i], selected);
      lists := lists + [list];
    }
  }

  /** `RemoveRandom`: the pivot ids are collected, each tour's other POIs are listed, and
      twelve times a random tour with a non-empty list has a random entry of it removed
      from `S` (and from the list when the removal succeeds). `requested` records the ids
      passed to `Remove`, in order: none of them is a selected pivot, and each was in
      some tour of the solution the move started from. */
  method RemoveRandom<S>(o: Oracle<S>, s0: S, pivots: seq<seq<Slot>>, tourDraws: seq<nat>, indexDraws: seq<nat>)
    returns (s: S, requested: seq<int>)
    requires |o.tours(s0)| >= 1
    requires AllHavePivots(pivots)
    requires |tourDraws| == MaxRandomDeleteOperations && |indexDraws| == MaxRandomDeleteOperations
    ensures |requested| <= MaxRandomDeleteOperations
    ensures forall k :: 0 <= k < |requested| ==> requested[k] !in PivotIds(pivots)
    ensures forall k :: 0 <= k < |requested| ==> InSomeTour(requested[k], o.tours(s0))
  {
    var selected := [];
    for t := 0 to |pivots|
      invariant selected == PivotIds(pivots[..t])
    {
      for k := 0 to |pivots[t]|
        invariant selected == PivotIds(pivots[..t]) + SlotPivots(pivots[t][..k])
      {
        assert pivots[t][..k + 1][..k] == pivots[t][..k];
        selected := selected + [PivotOf(pivots[t][k])];
      }
      assert pivots[t][..|pivots[t]|] == pivots[t];
      assert pivots[..t + 1][..t] == pivots[..t];
    }
    assert pivots[..|pivots|] == pivots;

    var tours := o.tours(s0);
    var notPivot := UnpinnedLists(tours, selected);

    s, requested := s0, [];
    for it := 0 to MaxRandomDeleteOperations
      invariant |notPivot| == |tours|
      invariant forall t :: 0 <= t < |tours| ==> Within(notPivot[t], tours[t], selected)
      invariant |requested| <= it
      invariant forall k :: 0 <= k < |requested| ==> requested[k] !in selected && InSomeTour(requested[k], tours)
    {
      var tour := tourDraws[it] % |tours|;
      var list := notPivot[tour];
      if |list| > 0 {
        var index := indexDraws[it] % |list|;
        var poi := list[index];
        var res := o.remove(s, IndexOf(TourOf(o, s, tour), poi), tour);
        s := res.1;
        requested := requested + [poi];
        if res.0 {
          assert Within(RemoveAt(list, index), tours[tour], selected);
          notPivot := notPivot[tour := RemoveAt(list, index)];
        }
      }
    }
  }

  // ---------------------------------------------------------------- InsertRandom

  /** `InsertRandom`: six times a random pool entry is offered to `PlacePoi` and leaves the
      pool when placed. Drawing from an empty pool raises; the pool only loses entries. */
  method InsertRandom<S>(o: Oracle<S>, s0: S, q0: seq<PoolPoi>, draws: seq<nat>)
    returns (r: Result<(S, seq<PoolPoi>), Fault>)
    requires |draws| == MaxRandomInsertOperations
    ensures q0 == [] ==> r == Err(ArgumentOutOfRange)
    ensures |q0| >= MaxRandomInsertOperations ==> r.Ok?
    ensures r.Ok? ==> multiset(r.value.1) <= multiset(q0) && |r.value.1| + MaxRandomInsertOperations >= |q0|
  {
    var s, q := s0, q0;
    for i := 0 to MaxRandomInsertOperations
      invariant multiset(q) <= multiset(q0) && |q| + i >= |q0|
      invariant i > 0 ==> q0 != []
    {
      if |q| == 0 {
        return Err(ArgumentOutOfRange);
      }
      var index := draws[i] % |q|;
      var res;
      res, s := PlacePoi(o, s, q[index]);
      if res {
        assert q == q[..index] + [q[index]] + q[index + 1..];
        q := RemoveAt(q, index);
      }
    }
    r := Ok((s, q));
  }
}
