/**
 * The bookkeeping of the simulated-annealing driver. The tour object itself (its
 * `Insert`, `Remove`, `Swap`, spaces and score) is not part of this model: it is an
 * `Oracle` of functions over an abstract solution state `S`, so every fact below holds
 * whatever those operations do. Random draws are passed in as parameters.
 */
module Annealing {
  import opened Wrappers
  import Text

  const InitialSolutionSeed: nat := 3
  const MaxIterWithoutImprovement: nat := 10
  const MinSwapTries: nat := 1
  const MaxSwapTries: nat := 4
  const MaxRandomDeleteOperations: nat := 12
  const MaxRandomInsertOperations: nat := 6

  /** A pool entry: a POI id and its admissible types. */
  datatype PoolPoi = PoolPoi(id: int, types: seq<int>)

  /** One entry of a tour's filled spaces: the POI occupying it and the space's size. */
  datatype FilledSpace = FilledSpace(id: int, size: int)

  /** The solution operations the driver calls, over an abstract state `S`. Each mutator
      answers whether it succeeded together with the state it leaves behind. */
  datatype Oracle<!S> = Oracle(
    insert: (S, int, int, int, int) -> (bool, S),   // (id, type, position, tour)
    remove: (S, int, int) -> (bool, S),             // (position, tour)
    swap: (S, int, int, int, int) -> (bool, S),     // (id, type, position, tour)
    emptySpaces: S -> seq<seq<int>>,                // the `After` mark of each empty space, per tour
    filledSpaces: S -> seq<seq<FilledSpace>>,
    tours: S -> seq<seq<int>>,                      // `S.Pois`: the ids of each tour in order
    tourSize: (S, int) -> int,                      // `S.Pois[tour].Count`
    poiType: (S, int) -> int,                       // `S.PoiTypes[id]`
    score: S -> real,
    isValid: S -> bool,
    typeCounts: S -> map<int, int>,                 // `S.PoiTypeCount`
    poiIndex: int -> PoolPoi)                       // `MetaData.PoiIndex[id]`

  // ---------------------------------------------------------------- type choice

  /** Every type of `types` has a count (the dictionary lookups of the policy succeed). */
  predicate Counted(types: seq<int>, counts: map<int, int>)
  {
    forall k :: 0 <= k < |types| ==> types[k] in counts
  }

  /** The type the policy holds after looking at the first `n` types: the first of them
      whose count is smallest. */
  function LeastUsed(types: seq<int>, counts: map<int, int>, n: nat): (r: int)
    requires 1 <= n <= |types| && Counted(types, counts)
    ensures r in counts
    ensures forall j :: 0 <= j < n ==> counts[r] <= counts[types[j]]
    ensures exists i :: 0 <= i < n && types[i] == r
                        && forall j :: 0 <= j < i ==> counts[r] < counts[types[j]]
  {
    if n == 1 then types[0]
    else
      var r := LeastUsed(types, counts, n - 1);
      if counts[types[n - 1]] < counts[r] then types[n - 1] else r
  }

  /** `PoiTypeSelectionPolicy`: the first of `types` whose count is smallest. */
  method PoiTypeSelectionPolicy(types: seq<int>, counts: map<int, int>) returns (result: int)
    requires |types| >= 1 && Counted(types, counts)
    ensures result == LeastUsed(types, counts, |types|)
  {
    result := types[0];
    for i := 1 to |types|
      invariant result == LeastUsed(types, counts, i)
    {
      var candidate := types[i];
      if counts[candidate] < counts[result] {
        result := candidate;
      }
    }
  }

  // ---------------------------------------------------------------- the largest space

  /** `(t, p)` comes before `(t', p')` in tour-major order. */
  predicate Before(t: int, p: int, t2: int, p2: int)
  {
    t < t2 || (t == t2 && p < p2)
  }

  /** `FindPoiWithHighestSpace`: the first filled space of greatest size, scanning the tours
      in order and each tour's spaces in order. */
  method FindPoiWithHighestSpace(filled: seq<seq<FilledSpace>>) returns (id: int, pos: nat, tour: nat)
    requires |filled| >= 1 && |filled[0]| >= 1
    ensures tour < |filled| && pos < |filled[tour]| && id == filled[tour][pos].id
    ensures forall t, p :: 0 <= t < |filled| && 0 <= p < |filled[t]| ==>
              filled[t][p].size <= filled[tour][pos].size
    ensures forall t, p :: 0 <= t < |filled| && 0 <= p < |filled[t]| && Before(t, p, tour, pos) ==>
              filled[t][p].size < filled[tour][pos].size
  {
    var space := filled[0][0];
    pos, tour := 0, 0;
    for i := 0 to |filled|
      invariant tour < |filled| && pos < |filled[tour]| && space == filled[tour][pos]
      invariant tour < i || (tour == 0 && pos == 0)
      invariant forall t, p :: 0 <= t < i && 0 <= p < |filled[t]| ==> filled[t][p].size <= space.size
      invariant forall t, p :: 0 <= t < |filled| && 0 <= p < |filled[t]| && Before(t, p, tour, pos) ==>
                  filled[t][p].size < space.size
    {
      for j := 0 to |filled[i]|
        invariant tour < |filled| && pos < |filled[tour]| && space == filled[tour][pos]
        invariant tour <= i || (tour == 0 && pos == 0)
        invariant tour == i ==> pos < j || (i == 0 && pos == 0)
        invariant forall t, p :: 0 <= t < i && 0 <= p < |filled[t]| ==> filled[t][p].size <= space.size
        invariant forall p :: 0 <= p < j ==> filled[i][p].size <= space.size
        invariant forall t, p :: 0 <= t < |filled| && 0 <= p < |filled[t]| && Before(t, p, tour, pos) ==>
                    filled[t][p].size < space.size
      {
        var other := filled[i][j];
        if space.size < other.size {
          space := other;
          tour, pos := i, j;
        }
      }
    }
    id := space.id;
  }

  // ---------------------------------------------------------------- placing one POI

  /** Where an empty space puts a POI: right after its `After` mark, or at the end of the
      tour when the mark is -1. */
  function Position<S>(o: Oracle<S>, s: S, after: int, tour: int): int
  {
    if after > -1 then after else o.tourSize(s, tour)
  }

  /** The types of `poi` from the `k`-th on, tried at one space until an insert succeeds.
      A failed insert may still change the state, so each attempt starts from the last. */
  function TryTypes<S>(o: Oracle<S>, s: S, poi: PoolPoi, after: int, tour: int, k: nat): (bool, S)
    decreases |poi.types| - k
  {
    if k >= |poi.types| then (false, s)
    else
      var attempt := o.insert(s, poi.id, poi.types[k], Position(o, s, after, tour), tour);
      if attempt.0 then attempt else TryTypes(o, attempt.1, poi, after, tour, k + 1)
  }

  /** The spaces of one tour from the `k`-th on, each tried with every type. */
  function TrySpaces<S>(o: Oracle<S>, s: S, poi: PoolPoi, spaces: seq<int>, tour: int, k: nat): (bool, S)
    decreases |spaces| - k
  {
    if k >= |spaces| then (false, s)
    else
      var attempt := TryTypes(o, s, poi, spaces[k], tour, 0);
      if attempt.0 then attempt else TrySpaces(o, attempt.1, poi, spaces, tour, k + 1)
  }

  /** The tours from the `j`-th on, each tried at every one of its empty spaces. */
  function TryTours<S>(o: Oracle<S>, s: S, poi: PoolPoi, spaces: seq<seq<int>>, j: nat): (bool, S)
    decreases |spaces| - j
  {
    if j >= |spaces| then (false, s)
    else
      var attempt := TrySpaces(o, s, poi, spaces[j], j, 0);
      if attempt.0 then attempt else TryTours(o, attempt.1, poi, spaces, j + 1)
  }

  /** The first-fit placement shared by `FillEmptySpaces` and `InsertRandom`: the empty
      spaces are read once, then tours, spaces and types are tried in order. */
  function Place<S>(o: Oracle<S>, s: S, poi: PoolPoi): (bool, S)
  {
    TryTours(o, s, poi, o.emptySpaces(s), 0)
  }

  /** The innermost loop: one space, every type. */
  method InsertAnyType<S>(o: Oracle<S>, s0: S, poi: PoolPoi, after: int, tour: int) returns (res: bool, s: S)
    ensures (res, s) == TryTypes(o, s0, poi, after, tour, 0)
  {
    res, s := false, s0;
    var k := 0;
    while k < |poi.types|
      invariant 0 <= k <= |poi.types| && !res
      invariant TryTypes(o, s0, poi, after, tour, 0) == TryTypes(o, s, poi, after, tour, k)
    {
      var attempt := o.insert(s, poi.id, poi.types[k], Position(o, s, after, tour), tour);
      res, s := attempt.0, attempt.1;
      if res {
        return;
      }
      k := k + 1;
    }
  }

  /** The middle loop: the spaces of one tour. */
  method InsertAnySpace<S>(o: Oracle<S>, s0: S, poi: PoolPoi, spaces: seq<int>, tour: int) returns (res: bool, s: S)
    ensures (res, s) == TrySpaces(o, s0, poi, spaces, tour, 0)
  {
    res, s := false, s0;
    var k := 0;
    while k < |spaces|
      invariant 0 <= k <= |spaces| && !res
      invariant TrySpaces(o, s0, poi, spaces, tour, 0) == TrySpaces(o, s, poi, spaces, tour, k)
    {
      res, s := InsertAnyType(o, s, poi, spaces[k], tour);
      if res {
        return;
      }
      k := k + 1;
    }
  }

  /** The outer loop over the tours; `PlacePoi` reads the empty spaces once, as the
      callers do before their loops. */
  method PlacePoi<S>(o: Oracle<S>, s0: S, poi: PoolPoi) returns (res: bool, s: S)
    ensures (res, s) == Place(o, s0, poi)
  {
    var spaces := o.emptySpaces(s0);
    res, s := false, s0;
    var j := 0;
    while j < |spaces|
      invariant 0 <= j <= |spaces| && !res
      invariant TryTours(o, s0, poi, spaces, 0) == TryTours(o, s, poi, spaces, j)
    {
      res, s := InsertAnySpace(o, s, poi, spaces[j], j);
      if res {
        return;
      }
      j := j + 1;
    }
  }

  /** A POI without types is never placed, and every attempt leaves the state alone. */
  lemma {:induction false} PlaceNeedsAType<S>(o: Oracle<S>, s: S, poi: PoolPoi)
    requires poi.types == []
    ensures Place(o, s, poi) == (false, s)
  {
    TryToursWithoutTypes(o, s, poi, o.emptySpaces(s), 0);
  }

  lemma {:induction false} TryToursWithoutTypes<S>(o: Oracle<S>, s: S, poi: PoolPoi, spaces: seq<seq<int>>, j: nat)
    requires poi.types == []
    ensures TryTours(o, s, poi, spaces, j) == (false, s)
    decreases |spaces| - j
  {
    if j < |spaces| {
      TrySpacesWithoutTypes(o, s, poi, spaces[j], j, 0);
      TryToursWithoutTypes(o, s, poi, spaces, j + 1);
    }
  }

  lemma {:induction false} TrySpacesWithoutTypes<S>(o: Oracle<S>, s: S, poi: PoolPoi, spaces: seq<int>, tour: int, k: nat)
    requires poi.types == []
    ensures TrySpaces(o, s, poi, spaces, tour, k) == (false, s)
    decreases |spaces| - k
  {
    if k < |spaces| {
      TrySpacesWithoutTypes(o, s, poi, spaces, tour, k + 1);
    }
  }

  /** When every insert succeeds, placement succeeds exactly when the POI has a type and
      some tour from the `j`-th on has an empty space. */
  lemma {:induction false} TryToursFirstFit<S>(o: Oracle<S>, s: S, poi: PoolPoi, spaces: seq<seq<int>>, j: nat)
    requires forall s', id, t, p, tour :: o.insert(s', id, t, p, tour).0
    ensures TryTours(o, s, poi, spaces, j).0 <==>
              poi.types != [] && exists t :: j <= t < |spaces| && spaces[t] != []
    decreases |spaces| - j
  {
    if j < |spaces| {
      TryToursFirstFit(o, TrySpaces(o, s, poi, spaces[j], j, 0).1, poi, spaces, j + 1);
      if spaces[j] != [] && poi.types != [] {
        assert TryTypes(o, s, poi, spaces[j][0], j, 0).0;
      } else if poi.types == [] {
        TrySpacesWithoutTypes(o, s, poi, spaces[j], j, 0);
      }
      if poi.types != [] && (exists t :: j + 1 <= t < |spaces| && spaces[t] != []) {
        assert TryTours(o, s, poi, spaces, j).0;
      }
    }
  }

  /** `Place` under an insert that always succeeds. */
  lemma PlaceFirstFit<S>(o: Oracle<S>, s: S, poi: PoolPoi)
    requires forall s', id, t, p, tour :: o.insert(s', id, t, p, tour).0
    ensures Place(o, s, poi).0 <==>
              poi.types != [] && exists t :: 0 <= t < |o.emptySpaces(s)| && o.emptySpaces(s)[t] != []
  {
    TryToursFirstFit(o, s, poi, o.emptySpaces(s), 0);
  }

  // ---------------------------------------------------------------- FillEmptySpaces

  predicate StrictlyIncreasing(s: seq<int>)
  {
    forall a, b :: 0 <= a < b < |s| ==> s[a] < s[b]
  }

  /** The pool indices placed, and the state reached, after offering the first `n` pool
      entries one by one. */
  function FillUpTo<S>(o: Oracle<S>, s: S, pool: seq<PoolPoi>, n: nat): (r: (seq<int>, S))
    requires n <= |pool|
    ensures StrictlyIncreasing(r.0)
    ensures forall k :: 0 <= k < |r.0| ==> 0 <= r.0[k] < n
  {
    if n == 0 then ([], s)
    else
      var before := FillUpTo(o, s, pool, n - 1);
      var placed := Place(o, before.1, pool[n - 1]);
      (if placed.0 then before.0 + [n - 1] else before.0, placed.1)
  }

  /** `FillEmptySpaces`: every pool entry is offered in order, and the indices of those
      placed are returned in increasing order. */
  method FillEmptySpaces<S>(o: Oracle<S>, s0: S, other: seq<PoolPoi>) returns (inserted: seq<int>, s: S)
    ensures (inserted, s) == FillUpTo(o, s0, other, |other|)
  {
    inserted, s := [], s0;
    for i := 0 to |other|
      invariant (inserted, s) == FillUpTo(o, s0, other, i)
    {
      var res;
      res, s := PlacePoi(o, s, other[i]);
      if res {
        inserted := inserted + [i];
      }
    }
  }

  /** A pool index is reported exactly when its own placement succeeded, on the state the
      earlier entries left behind. */
  lemma {:induction false} FillMembership<S>(o: Oracle<S>, s: S, pool: seq<PoolPoi>, n: nat, i: nat)
    requires i < n <= |pool|
    ensures i in FillUpTo(o, s, pool, n).0 <==> Place(o, FillUpTo(o, s, pool, i).1, pool[i]).0
  {
    if i < n - 1 {
      FillMembership(o, s, pool, n - 1, i);
      assert n - 1 !in FillUpTo(o, s, pool, n - 1).0;
    } else {
      assert i !in FillUpTo(o, s, pool, n - 1).0;
    }
  }

  // ---------------------------------------------------------------- the pool Q

  function RemoveAt<T>(q: seq<T>, x: nat): seq<T>
    requires x < |q|
  {
    q[..x] + q[x + 1..]
  }

  /** The entries of `q` from position `i` on whose positions are not listed in `drop`,
      in their order. */
  function KeepFrom<T>(q: seq<T>, drop: seq<int>, i: nat): seq<T>
    decreases |q| - i
  {
    if i >= |q| then [] else (if i in drop then [] else [q[i]]) + KeepFrom(q, drop, i + 1)
  }

  function KeepOut<T>(q: seq<T>, drop: seq<int>): seq<T>
  {
    KeepFrom(q, drop, 0)
  }

  lemma {:induction false} KeepFromPrefix<T>(q: seq<T>, drop: seq<int>, i: nat, m: nat)
    requires i <= m <= |q|
    requires forall k :: 0 <= k < |drop| ==> !(i <= drop[k] < m)
    ensures KeepFrom(q, drop, i) == q[i..m] + KeepFrom(q, drop, m)
    decreases m - i
  {
    if i < m {
      assert i !in drop;
      assert KeepFrom(q, drop, i) == [q[i]] + KeepFrom(q, drop, i + 1);
      KeepFromPrefix(q, drop, i + 1, m);
      assert q[i..m] == [q[i]] + q[i + 1..m];
      Text.ConcatAssoc([q[i]], q[i + 1..m], KeepFrom(q, drop, m));
    }
  }

  lemma {:induction false} KeepFromAgree<T>(q: seq<T>, d1: seq<int>, d2: seq<int>, i: nat)
    requires forall p :: i <= p < |q| ==> (p in d1 <==> p in d2)
    ensures KeepFrom(q, d1, i) == KeepFrom(q, d2, i)
    decreases |q| - i
  {
    if i < |q| {
      KeepFromAgree(q, d1, d2, i + 1);
    }
  }

  /** Removing position `x` after every later listed position is gone drops `x` too. */
  lemma RemoveBelow<T>(q: seq<T>, drop: seq<int>, x: nat)
    requires x < |q|
    requires forall k :: 0 <= k < |drop| ==> drop[k] > x
    ensures x < |KeepOut(q, drop)|
    ensures RemoveAt(KeepOut(q, drop), x) == KeepOut(q, [x] + drop)
  {
    KeepFromPrefix(q, drop, 0, x + 1);
    KeepFromPrefix(q, [x] + drop, 0, x);
    KeepFromAgree(q, drop, [x] + drop, x + 1);
    var rest := KeepFrom(q, drop, x + 1);
    assert KeepOut(q, drop) == q[..x + 1] + rest;
    assert KeepOut(q, [x] + drop) == q[..x] + rest;
    assert (q[..x + 1] + rest)[..x] == q[..x];
    assert (q[..x + 1] + rest)[x + 1..] == rest;
  }

  /** Nothing listed, nothing removed. */
  lemma KeepOutNone<T>(q: seq<T>)
    ensures KeepOut(q, []) == q
  {
    KeepFromPrefix(q, [], 0, |q|);
  }

  /** Dropping distinct valid positions shortens the pool by their number. */
  lemma {:induction false} KeepOutLength<T>(q: seq<T>, drop: seq<int>)
    requires StrictlyIncreasing(drop)
    requires forall k :: 0 <= k < |drop| ==> 0 <= drop[k] < |q|
    ensures |KeepOut(q, drop)| == |q| - |drop|
  {
    if drop == [] {
      KeepOutNone(q);
    } else {
      KeepOutLength(q, drop[1..]);
      RemoveBelow(q, drop[1..], drop[0]);
      assert [drop[0]] + drop[1..] == drop;
    }
  }

  /** The removal loop of `Solve` (lines 62-63): the placed indices, ascending, are removed
      from the last to the first, which deletes exactly those entries. */
  method RemoveInserted<T>(q: seq<T>, inserted: seq<int>) returns (r: seq<T>)
    requires StrictlyIncreasing(inserted)
    requires forall k :: 0 <= k < |inserted| ==> 0 <= inserted[k] < |q|
    ensures r == KeepOut(q, inserted)
  {
    KeepOutNone(q);
    r := q;
    var k := |inserted|;
    assert inserted[k..] == [];
    while k > 0
      invariant 0 <= k <= |inserted|
      invariant r == KeepOut(q, inserted[k..])
    {
      k := k - 1;
      RemoveBelow(q, inserted[k + 1..], inserted[k]);
      assert inserted[k..] == [inserted[k]] + inserted[k + 1..];
      r := RemoveAt(r, inserted[k]);
    }
  }

  // ---------------------------------------------------------------- the skip stride

  /** The indices into `other` that the stride loop of `GenerateInitialSolution` reads
      with its counter at `i` and beyond: `i + skip` while that is in range, otherwise the
      last index. */
  function StrideFrom(i: int, length: int, skip: int): seq<int>
    decreases length - i
  {
    if i >= length then []
    else [if i + skip < length then i + skip else length - 1] + StrideFrom(i + InitialSolutionSeed, length, skip)
  }

  /** The stride loop as written: the counter starts at `-skip` and grows by the seed. */
  method StrideIndices(length: nat, skip: nat) returns (visited: seq<int>)
    requires skip < InitialSolutionSeed
    ensures visited == StrideFrom(-(skip as int), length, skip)
  {
    visited := [];
    var i: int := -(skip as int);
    while i < length
      invariant i + skip >= 0
      invariant visited + StrideFrom(i, length, skip) == StrideFrom(-(skip as int), length, skip)
      decreases length - i
    {
      visited := visited + [if i + skip < length then i + skip else length - 1];
      i := i + InitialSolutionSeed;
    }
  }

  /** With nothing left to place and a non-zero skip the loop body still runs once, and
      reads position -1 of the empty list. */
  lemma StrideReadsBeforeStart(skip: nat)
    requires 0 < skip < InitialSolutionSeed
    ensures StrideFrom(-(skip as int), 0, skip) == [-1]
  {
  }

  /** The stride loop run only over a non-empty list. */
  function GuardedStride(length: nat, skip: nat): seq<int>
  {
    if length == 0 then [] else StrideFrom(-(skip as int), length, skip)
  }

  lemma {:induction false} StrideFromShape(i: int, length: int, skip: nat)
    requires 0 < length && skip < InitialSolutionSeed
    requires i + skip >= 0 && (i + skip) % InitialSolutionSeed == 0
    ensures forall k :: 0 <= k < |StrideFrom(i, length, skip)| ==>
              (0 <= StrideFrom(i, length, skip)[k] < length
               && (StrideFrom(i, length, skip)[k] % InitialSolutionSeed == 0
                   || StrideFrom(i, length, skip)[k] == length - 1)
               && (StrideFrom(i, length, skip)[k] >= i + skip || StrideFrom(i, length, skip)[k] == length - 1))
    ensures StrictlyIncreasing(StrideFrom(i, length, skip))
    decreases length - i
  {
    if i < length {
      StrideFromShape(i + InitialSolutionSeed, length, skip);
      var tail := StrideFrom(i + InitialSolutionSeed, length, skip);
      var head := if i + skip < length then i + skip else length - 1;
      var r := StrideFrom(i, length, skip);
      assert r == [head] + tail;
      assert tail != [] ==> i + InitialSolutionSeed < length;
      forall k | 0 <= k < |tail|
        ensures head < tail[k]
      {
        assert tail[k] >= i + InitialSolutionSeed + skip || tail[k] == length - 1;
      }
      forall a, b | 0 <= a < b < |r|
        ensures r[a] < r[b]
      {
        if a > 0 {
          assert r[a] == tail[a - 1] && r[b] == tail[b - 1];
        }
      }
    }
  }

  /** Once guarded, every index read is in range, no index is read twice, and each is a
      multiple of the seed or the last index. */
  lemma GuardedStrideInRange(length: nat, skip: nat)
    requires skip < InitialSolutionSeed
    ensures forall k :: 0 <= k < |GuardedStride(length, skip)| ==>
              (0 <= GuardedStride(length, skip)[k] < length
               && (GuardedStride(length, skip)[k] % InitialSolutionSeed == 0
                   || GuardedStride(length, skip)[k] == length - 1))
    ensures StrictlyIncreasing(GuardedStride(length, skip))
  {
    if length > 0 {
      StrideFromShape(-(skip as int), length, skip);
    }
  }

  // ---------------------------------------------------------------- one move of Solve

  /** What `Solve` carries from one pool entry to the next: the current solution `S`, the
      pool `Q`, the best solution so far and the moves since the last improvement (`i`).
      `shared` holds when `best` and `S` are one object, as after `best = S`: an in-place
      change of `S` is then a change of `best` too. */
  datatype Search<S> = Search(current: S, pool: seq<PoolPoi>, best: S, stall: nat, shared: bool)

  /** One object has one value. */
  ghost predicate Coherent<S>(st: Search<S>)
  {
    st.shared ==> st.best == st.current
  }

  /** The filled space `FindPoiWithHighestSpace` reported before the pass over the pool. */
  datatype Spot = Spot(id: int, pos: int, tour: int)

  /** The pool entry at `index` exists and the type policy can look all its types up. */
  predicate Movable<S>(o: Oracle<S>, st: Search<S>, index: nat)
  {
    index < |st.pool| && |st.pool[index].types| >= 1
    && Counted(st.pool[index].types, o.typeCounts(st.current))
  }

  /** The neighbour `R` of a move: the current solution with pool entry `index` swapped in
      at the largest space, then topped up by `FillEmptySpaces`; `None` when the swap or
      the validation of `R` fails. The indices placed by the top-up come with it. */
  function Neighbour<S>(o: Oracle<S>, st: Search<S>, a: Spot, index: nat): Option<(seq<int>, S)>
    requires Movable(o, st, index)
  {
    var b := st.pool[index];
    var swapped := o.swap(st.current, b.id, LeastUsed(b.types, o.typeCounts(st.current), |b.types|), a.pos, a.tour);
    if swapped.0 && o.isValid(swapped.1) then Some(FillUpTo(o, swapped.1, st.pool, |st.pool|)) else None
  }

  /** One pass of the inner loop of `Solve` (lines 43-79). An accepted neighbour becomes
      the current solution, the swapped-out POI takes the pool entry's place and the
      entries placed by the top-up leave the pool; the best solution changes only on a
      strictly higher score, and then is the current object itself. An accepted neighbour
      is a fresh clone, so `S` and `best` part unless it is the new best. `lucky` is the
      outcome of the Metropolis draw. */
  function Step<S>(o: Oracle<S>, st: Search<S>, a: Spot, index: nat, lucky: bool): (r: Search<S>)
    requires Movable(o, st, index)
    ensures r.current == st.current
            || (Neighbour(o, st, a, index).Some? && r.current == Neighbour(o, st, a, index).value.1)
    ensures (r.stall == 0 && r.best == r.current) || (r.stall == st.stall + 1 && r.best == st.best)
    ensures r.pool == st.pool || Neighbour(o, st, a, index).Some?
  {
    match Neighbour(o, st, a, index)
    case None => st.(stall := st.stall + 1)
    case Some(filled) =>
      var accepted := o.score(filled.1) > o.score(st.current) || lucky;
      var current := if accepted then filled.1 else st.current;
      var pool := if accepted then KeepOut(st.pool[index := o.poiIndex(a.id)], filled.0) else st.pool;
      if o.score(current) > o.score(st.best) then Search(current, pool, current, 0, true)
      else Search(current, pool, st.best, st.stall + 1, st.shared && !accepted)
  }

  /** The loop body of `Solve` for pool entry `index`, calling the routines above. */
  method Move<S>(o: Oracle<S>, st: Search<S>, a: Spot, index: nat, lucky: bool) returns (next: Search<S>)
    requires Movable(o, st, index)
    ensures next == Step(o, st, a, index, lucky)
  {
    var b := st.pool[index];
    var r := st.current;
    var poiType := PoiTypeSelectionPolicy(b.types, o.typeCounts(r));
    var swapped := o.swap(r, b.id, poiType, a.pos, a.tour);
    var valid := swapped.0;
    r := swapped.1;
    if valid {
      valid := o.isValid(r);
    }
    if valid {
      var inserted;
      inserted, r := FillEmptySpaces(o, r, st.pool);
      var s, q, shared := st.current, st.pool, st.shared;
      if o.score(r) > o.score(s) || lucky {
        s, shared := r, false;
        q := q[index := o.poiIndex(a.id)];
        q := RemoveInserted(q, inserted);
      }
      if o.score(s) > o.score(st.best) {
        next := Search(s, q, s, 0, true);
      } else {
        next := Search(s, q, st.best, st.stall + 1, shared);
      }
    } else {
      next := st.(stall := st.stall + 1);
    }
  }

  /** Within one move (lines 43-79) the best score does not drop: either the best
      solution is kept and the stall count grows, or the current solution has a strictly
      higher score, becomes the best (as the same object), and the stall count restarts.
      What the perturbation after the move does to the best is `Pass`'s concern. */
  lemma StepKeepsBest<S>(o: Oracle<S>, st: Search<S>, a: Spot, index: nat, lucky: bool)
    requires Movable(o, st, index)
    ensures var next := Step(o, st, a, index, lucky);
            (next.best == st.best && next.stall == st.stall + 1)
            || (next.best == next.current && next.shared && o.score(next.best) > o.score(st.best) && next.stall == 0)
    ensures Coherent(st) ==> Coherent(Step(o, st, a, index, lucky))
  {
  }

  // ------------------------------------------------- the perturbation after a move

  /** One pass of the inner loop of `Solve` (lines 43-87) as written: the move, then, after
      more than ten moves without improvement, `RemoveRandom`, `SwapPivots` and
      `InsertRandom` change `S` and `Q` in place (`perturb` stands for the three) and the
      stall count restarts. Since `best = S` leaves the two one object, a perturbation
      while they are shared rewrites `best` as well. */
  function Pass<S>(o: Oracle<S>, st: Search<S>, a: Spot, index: nat, lucky: bool,
                   perturb: (S, seq<PoolPoi>) -> (S, seq<PoolPoi>)): Search<S>
    requires Movable(o, st, index)
  {
    var next := Step(o, st, a, index, lucky);
    if next.stall > MaxIterWithoutImprovement then
      var (s, q) := perturb(next.current, next.pool);
      Search(s, q, if next.shared then s else next.best, 0, next.shared)
    else next
  }

  /** As written, a perturbation can lower the best score: after a new best, when ten
      moves in a row have failed, the eleventh failure triggers the perturbation, and the
      `best` returned is the perturbed solution, whatever it scores. */
  lemma PassLosesBest<S>(o: Oracle<S>, st: Search<S>, a: Spot, index: nat, lucky: bool,
                         perturb: (S, seq<PoolPoi>) -> (S, seq<PoolPoi>))
    requires Movable(o, st, index) && Coherent(st)
    requires st.shared && st.stall == MaxIterWithoutImprovement
    requires Neighbour(o, st, a, index).None?
    requires o.score(perturb(st.current, st.pool).0) < o.score(st.best)
    ensures Pass(o, st, a, index, lucky, perturb).best == perturb(st.current, st.pool).0
    ensures o.score(Pass(o, st, a, index, lucky, perturb).best) < o.score(st.best)
  {
    assert Step(o, st, a, index, lucky) == st.(stall := st.stall + 1);
  }

  /** A new best leaves `best` and `S` one object, and failed moves keep them so; so the
      case above follows any new best that is followed by eleven failed moves. */
  lemma NewBestIsShared<S>(o: Oracle<S>, st: Search<S>, a: Spot, index: nat, lucky: bool)
    requires Movable(o, st, index)
    ensures Neighbour(o, st, a, index).Some?
            && o.score(Neighbour(o, st, a, index).value.1) > o.score(st.current)
            && o.score(Neighbour(o, st, a, index).value.1) > o.score(st.best)
            ==> Step(o, st, a, index, lucky).shared
                && Step(o, st, a, index, lucky).best == Neighbour(o, st, a, index).value.1
    ensures Neighbour(o, st, a, index).None? ==> Step(o, st, a, index, lucky).shared == st.shared
  {
  }

  /** The same pass with `best = S.Clone()` on lines 31 and 68: the perturbation changes
      only `S` and `Q`. */
  function PassCloned<S>(o: Oracle<S>, st: Search<S>, a: Spot, index: nat, lucky: bool,
                         perturb: (S, seq<PoolPoi>) -> (S, seq<PoolPoi>)): Search<S>
    requires Movable(o, st, index)
  {
    var next := Step(o, st, a, index, lucky);
    if next.stall > MaxIterWithoutImprovement then
      var (s, q) := perturb(next.current, next.pool);
      Search(s, q, next.best, 0, false)
    else next.(shared := false)
  }

  /** With the clone, the best score never drops over a pass, perturbation included: the
      best is kept, or replaced by a solution scoring strictly more. */
  lemma PassClonedKeepsBest<S>(o: Oracle<S>, st: Search<S>, a: Spot, index: nat, lucky: bool,
                               perturb: (S, seq<PoolPoi>) -> (S, seq<PoolPoi>))
    requires Movable(o, st, index)
    ensures var next := PassCloned(o, st, a, index, lucky, perturb);
            next.best == st.best || o.score(next.best) > o.score(st.best)
    ensures !PassCloned(o, st, a, index, lucky, perturb).shared
  {
    StepKeepsBest(o, st, a, index, lucky);
  }


  /** A neighbour that beats the current solution is always accepted, whatever the draw,
      and the entries the top-up placed leave the pool. */
  lemma ImprovingNeighbourAccepted<S>(o: Oracle<S>, st: Search<S>, a: Spot, index: nat, lucky: bool)
    requires Movable(o, st, index)
    requires Neighbour(o, st, a, index).Some?
    requires o.score(Neighbour(o, st, a, index).value.1) > o.score(st.current)
    ensures var filled := Neighbour(o, st, a, index).value;
            var next := Step(o, st, a, index, lucky);
            next.current == filled.1
            && next.pool == KeepOut(st.pool[index := o.poiIndex(a.id)], filled.0)
            && |next.pool| == |st.pool| - |filled.0|
  {
    var filled := Neighbour(o, st, a, index).value;
    KeepOutLength(st.pool[index := o.poiIndex(a.id)], filled.0);
  }

  /** A failed swap or validation changes nothing but the stall count. */
  lemma InvalidNeighbourRejected<S>(o: Oracle<S>, st: Search<S>, a: Spot, index: nat, lucky: bool)
    requires Movable(o, st, index)
    requires Neighbour(o, st, a, index).None?
    ensures Step(o, st, a, index, lucky) == st.(stall := st.stall + 1)
  {
  }

  /** The best solution scores at least as much as the current one before the move and
      still does after it. */
  lemma StepKeepsBestAhead<S>(o: Oracle<S>, st: Search<S>, a: Spot, index: nat, lucky: bool)
    requires Movable(o, st, index)
    requires o.score(st.best) >= o.score(st.current)
    ensures o.score(Step(o, st, a, index, lucky).best) >= o.score(Step(o, st, a, index, lucky).current)
  {
  }
}
