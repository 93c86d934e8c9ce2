/**
 * Enumeration helpers used by the exhaustive drivers: all orderings of an array
 * (built recursively by choosing a first element and permuting the rest) and the
 * collection of their prefixes with a de-duplication rule.
 */
module ArrayExtension {
  import opened Wrappers

  /** No element occurs twice. */
  predicate Distinct<T(==,!new)>(s: seq<T>)
  {
    forall i, j :: 0 <= i < j < |s| ==> s[i] != s[j]
  }

  /** The distinct elements of `values` that are not in `seen`, in order of first occurrence. */
  function ExceptFrom<T(==,!new)>(values: seq<T>, seen: set<T>): (r: seq<T>)
    ensures Distinct(r)
    ensures forall x :: x in r <==> x in values && x !in seen
    ensures |r| <= |values|
    ensures (exists k :: 0 <= k < |values| && values[k] in seen) ==> |r| < |values|
  {
    if values == [] then []
    else if values[0] in seen then ExceptFrom(values[1..], seen)
    else
      var rest := ExceptFrom(values[1..], seen + {values[0]});
      assert forall k :: 0 < k < |values| ==> values[k] == values[1..][k - 1];
      [values[0]] + rest
  }

  /** LINQ `values.Except(new[] { v })`: a set difference, so it drops every copy of `v`
      and also every repeated occurrence of the other elements. */
  function Except<T(==,!new)>(values: seq<T>, v: T): (r: seq<T>)
    ensures Distinct(r) && v !in r
    ensures forall x :: x in r <==> x in values && x != v
    ensures v in values ==> |r| < |values|
  {
    ExceptFrom(values, {v})
  }

  /** `v` in front of each array of `ps`. */
  function Prefixed<T(!new)>(v: T, ps: seq<seq<T>>): (r: seq<seq<T>>)
    ensures |r| == |ps| && forall k :: 0 <= k < |ps| ==> r[k] == [v] + ps[k]
  {
    seq(|ps|, k requires 0 <= k < |ps| => [v] + ps[k])
  }

  /** `Permutations`: a one-element array is its own only ordering; otherwise, for each
      element `v` in input order, `v` followed by each ordering of `values.Except(v)`. */
  function Permutations<T(==,!new)>(values: seq<T>): seq<seq<T>>
    decreases |values|, 1, 0
  {
    if |values| == 1 then [values] else Expand(values, 0)
  }

  /** The `SelectMany` of `Permutations` from the element at index `i` on. */
  function Expand<T(==,!new)>(values: seq<T>, i: nat): seq<seq<T>>
    requires i <= |values|
    decreases |values|, 0, |values| - i
  {
    if i == |values| then []
    else Prefixed(values[i], Permutations(Except(values, values[i]))) + Expand(values, i + 1)
  }

  /** An empty array has no orderings at all: `SelectMany` runs over nothing. */
  lemma PermutationsOfEmpty<T(!new)>()
    ensures Permutations<T>([]) == []
  {
  }

  /** The elements of `values` outside `seen`, in order, repeats kept. */
  function Outside<T(!new)>(values: seq<T>, seen: set<T>): seq<T>
  {
    if values == [] then []
    else (if values[0] in seen then [] else [values[0]]) + Outside(values[1..], seen)
  }

  lemma {:induction false} OutsideIgnores<T(!new)>(values: seq<T>, seen: set<T>, x: T)
    requires x !in values
    ensures Outside(values, seen + {x}) == Outside(values, seen)
  {
    if values != [] {
      assert values[0] in values;
      assert x !in values[1..] by {
        assert forall k :: 0 <= k < |values[1..]| ==> values[1..][k] == values[k + 1];
      }
      OutsideIgnores(values[1..], seen, x);
    }
  }

  /** Without a repeated element, `ExceptFrom` drops nothing but the elements of `seen`. */
  lemma {:induction false} ExceptFromDistinct<T(!new)>(values: seq<T>, seen: set<T>)
    requires Distinct(values)
    ensures ExceptFrom(values, seen) == Outside(values, seen)
  {
    if values != [] {
      var x, rest := values[0], values[1..];
      assert Distinct(rest) by {
        assert forall k :: 0 <= k < |rest| ==> rest[k] == values[k + 1];
      }
      if x in seen {
        ExceptFromDistinct(rest, seen);
      } else {
        assert x !in rest by {
          assert forall k :: 0 <= k < |rest| ==> rest[k] == values[k + 1];
        }
        ExceptFromDistinct(rest, seen + {x});
        OutsideIgnores(rest, seen, x);
      }
    }
  }

  lemma {:induction false} OutsideSingle<T(!new)>(values: seq<T>, i: nat)
    requires Distinct(values) && i < |values|
    ensures Outside(values, {values[i]}) == values[..i] + values[i + 1..]
  {
    var v := values[i];
    var rest := values[1..];
    assert Distinct(rest) by {
      assert forall k :: 0 <= k < |rest| ==> rest[k] == values[k + 1];
    }
    if i == 0 {
      assert v !in rest by {
        assert forall k :: 0 <= k < |rest| ==> rest[k] == values[k + 1];
      }
      OutsideNone(rest, v);
    } else {
      assert values[0] != v;
      OutsideSingle(rest, i - 1);
      assert rest[i - 1] == v;
      assert values[..i] == [values[0]] + rest[..i - 1];
      assert values[i + 1..] == rest[i..];
    }
  }

  lemma {:induction false} OutsideNone<T(!new)>(values: seq<T>, v: T)
    requires v !in values
    ensures Outside(values, {v}) == values
  {
    if values != [] {
      assert values[0] in values;
      assert v !in values[1..] by {
        assert forall k :: 0 <= k < |values[1..]| ==> values[1..][k] == values[k + 1];
      }
      OutsideNone(values[1..], v);
      assert values == [values[0]] + values[1..];
    }
  }

  /** Without a repeated element, `Except(values, values[i])` is `values` with position `i`
      taken out. */
  lemma ExceptDistinct<T(!new)>(values: seq<T>, i: nat)
    requires Distinct(values) && i < |values|
    ensures Except(values, values[i]) == values[..i] + values[i + 1..]
    ensures multiset(Except(values, values[i])) == multiset(values) - multiset{values[i]}
    ensures |Except(values, values[i])| == |values| - 1
  {
    ExceptFromDistinct(values, {values[i]});
    OutsideSingle(values, i);
    assert values == values[..i] + [values[i]] + values[i + 1..];
  }

  /** For distinct elements every ordering produced is a rearrangement of the input. */
  lemma {:induction false} PermutationsRearrange<T(!new)>(values: seq<T>)
    requires Distinct(values)
    ensures forall p :: p in Permutations(values) ==> multiset(p) == multiset(values) && |p| == |values|
    decreases |values|, 1, 0
  {
    if |values| != 1 {
      ExpandRearranges(values, 0);
    }
  }

  lemma {:induction false} ExpandRearranges<T(!new)>(values: seq<T>, i: nat)
    requires Distinct(values) && i <= |values|
    ensures forall p :: p in Expand(values, i) ==> multiset(p) == multiset(values) && |p| == |values|
    decreases |values|, 0, |values| - i
  {
    if i < |values| {
      var v := values[i];
      var rest := Except(values, v);
      ExceptDistinct(values, i);
      PermutationsRearrange(rest);
      ExpandRearranges(values, i + 1);
      forall p | p in Prefixed(v, Permutations(rest))
        ensures multiset(p) == multiset(values) && |p| == |values|
      {
        var k :| 0 <= k < |Permutations(rest)| && p == Prefixed(v, Permutations(rest))[k];
        var q := Permutations(rest)[k];
        assert q in Permutations(rest);
        assert p == [v] + q;
        assert multiset(p) == multiset{v} + multiset(q);
      }
    }
  }

  function Factorial(n: nat): (f: nat)
    ensures f >= 1
  {
    if n == 0 then 1 else n * Factorial(n - 1)
  }

  /** For distinct elements there are n! orderings of a non-empty array. */
  lemma {:induction false} PermutationsCount<T(!new)>(values: seq<T>)
    requires Distinct(values) && |values| >= 1
    ensures |Permutations(values)| == Factorial(|values|)
    decreases |values|, 1, 0
  {
    if |values| != 1 {
      ExpandCount(values, 0);
    }
  }

  lemma {:induction false} ExpandCount<T(!new)>(values: seq<T>, i: nat)
    requires Distinct(values) && 2 <= |values| && i <= |values|
    ensures |Expand(values, i)| == (|values| - i) * Factorial(|values| - 1)
    decreases |values|, 0, |values| - i
  {
    if i < |values| {
      var rest := Except(values, values[i]);
      ExceptDistinct(values, i);
      PermutationsCount(rest);
      ExpandCount(values, i + 1);
      var head := Prefixed(values[i], Permutations(rest));
      assert Expand(values, i) == head + Expand(values, i + 1);
      MulStep(|values| - i, Factorial(|values| - 1));
    }
  }

  lemma MulStep(a: nat, f: nat)
    requires a >= 1
    ensures a * f == f + (a - 1) * f
  {
  }

  /** For distinct elements the orderings come in blocks of (n-1)!, one block per
      first element, in input order. */
  lemma {:induction false} PermutationsGrouped<T(!new)>(values: seq<T>, i: nat, k: nat)
    requires Distinct(values) && |values| >= 2
    requires i < |values| && k < Factorial(|values| - 1)
    ensures |Permutations(Except(values, values[i]))| == Factorial(|values| - 1)
    ensures i * Factorial(|values| - 1) + k < |Permutations(values)|
    ensures Permutations(values)[i * Factorial(|values| - 1) + k]
              == [values[i]] + Permutations(Except(values, values[i]))[k]
  {
    ExpandAt(values, 0, i, k);
  }

  lemma {:induction false} ExpandAt<T(!new)>(values: seq<T>, j: nat, a: nat, k: nat)
    requires Distinct(values) && |values| >= 2
    requires j + a < |values| && k < Factorial(|values| - 1)
    ensures |Permutations(Except(values, values[j + a]))| == Factorial(|values| - 1)
    ensures a * Factorial(|values| - 1) + k < |Expand(values, j)|
    ensures Expand(values, j)[a * Factorial(|values| - 1) + k]
              == [values[j + a]] + Permutations(Except(values, values[j + a]))[k]
    decreases a
  {
    if a == 0 {
      ExpandAtHead(values, j, k);
    } else {
      var f := Factorial(|values| - 1);
      ExpandHead(values, j);
      var head := Prefixed(values[j], Permutations(Except(values, values[j])));
      ExpandAt(values, j + 1, a - 1, k);
      assert j + 1 + (a - 1) == j + a;
      BlockShift(Expand(values, j), head, Expand(values, j + 1), f, a, k);
    }
  }

  lemma ExpandAtHead<T(!new)>(values: seq<T>, j: nat, k: nat)
    requires Distinct(values) && |values| >= 2
    requires j < |values| && k < Factorial(|values| - 1)
    ensures |Permutations(Except(values, values[j]))| == Factorial(|values| - 1)
    ensures k < |Expand(values, j)|
    ensures Expand(values, j)[k] == [values[j]] + Permutations(Except(values, values[j]))[k]
  {
    ExpandHead(values, j);
  }

  /** The first block of `Expand(values, j)` holds the (n-1)! orderings that start with `values[j]`. */
  lemma ExpandHead<T(!new)>(values: seq<T>, j: nat)
    requires Distinct(values) && |values| >= 2 && j < |values|
    ensures |Permutations(Except(values, values[j]))| == Factorial(|values| - 1)
    ensures Expand(values, j)
              == Prefixed(values[j], Permutations(Except(values, values[j]))) + Expand(values, j + 1)
  {
    ExceptDistinct(values, j);
    PermutationsCount(Except(values, values[j]));
  }

  /** One block further along: the index moves by one block length. */
  lemma BlockShift<T>(all: seq<T>, head: seq<T>, tail: seq<T>, f: nat, a: nat, k: nat)
    requires all == head + tail && a >= 1 && |head| == f
    requires (a - 1) * f + k < |tail|
    ensures a * f + k < |all|
    ensures all[a * f + k] == tail[(a - 1) * f + k]
  {
    MulStep(a, f);
  }

  /** With a repeated element the lengths break: `[x, x]` has no orderings at all,
      because removing `x` removes both copies. */
  lemma RepeatedElementLosesOrderings()
    ensures Permutations([7, 7]) == []
  {
    assert Except([7, 7], 7) == [];
    assert Expand([7, 7], 2) == [];
    assert Expand([7, 7], 1) == [];
  }

  // ---------------------------------------------------------------- prefixes

  /** The last collected array whose length is `n`, if there is one. */
  function LastOfLength<T(!new)>(collection: seq<seq<T>>, n: nat): (r: Option<seq<T>>)
    ensures r.Some? ==> |r.value| == n && r.value in collection
  {
    if collection == [] then None
    else if |collection[|collection| - 1]| == n then Some(collection[|collection| - 1])
    else LastOfLength(collection[..|collection| - 1], n)
  }

  /** The prefixes `item[..i+1]`, `item[..i+2]`, … appended in turn, each one skipped
      when the last collected array of its length equals it. */
  function AddPrefixes<T(==,!new)>(collection: seq<seq<T>>, item: seq<T>, i: nat): seq<seq<T>>
    requires i <= |item|
    decreases |item| - i
  {
    if i == |item| then collection
    else
      var list := item[..i + 1];
      var skip := LastOfLength(collection, i + 1) == Some(list);
      AddPrefixes(if skip then collection else collection + [list], item, i + 1)
  }

  /** The collection after every ordering of `perms` has contributed its prefixes. */
  function Collect<T(==,!new)>(collection: seq<seq<T>>, perms: seq<seq<T>>): seq<seq<T>>
    decreases |perms|
  {
    if perms == [] then collection else Collect(AddPrefixes(collection, perms[0], 0), perms[1..])
  }

  /** Counts the positions at which two equally long arrays agree. */
  method CountSame<T(==,!new)>(other: seq<T>, list: seq<T>) returns (same: nat)
    requires |other| == |list|
    ensures same <= |other|
    ensures same == |other| <==> other == list
  {
    same := 0;
    for j := 0 to |other|
      invariant same <= j
      invariant same == j <==> other[..j] == list[..j]
    {
      if other[j] == list[j] {
        same := same + 1;
      }
      assert other[..j + 1] == other[..j] + [other[j]] && list[..j + 1] == list[..j] + [list[j]];
    }
    assert other[..|other|] == other && list[..|list|] == list;
  }

  /** The inner scan over the collection: `skip` ends up describing the last collected
      array of the same length, since every such array overwrites it. */
  method LastSameLengthEqual<T(==,!new)>(collection: seq<seq<T>>, list: seq<T>) returns (skip: bool)
    ensures skip <==> LastOfLength(collection, |list|) == Some(list)
  {
    skip := false;
    for c := 0 to |collection|
      invariant skip <==> LastOfLength(collection[..c], |list|) == Some(list)
    {
      var other := collection[c];
      assert collection[..c + 1][..c] == collection[..c];
      if |other| == |list| {
        var same := CountSame(other, list);
        skip := same == |other|;
      }
    }
    assert collection[..|collection|] == collection;
  }

  /** `AllCombinations`: for each ordering in turn, each of its non-empty prefixes is added
      to the collection unless the last collected array of that length equals it. */
  method AllCombinations<T(==,!new)>(values: seq<T>) returns (collection: seq<seq<T>>)
    ensures collection == Collect([], Permutations(values))
    ensures forall c :: c in collection ==>
              c != [] && exists p :: p in Permutations(values) && c <= p
  {
    var perms := Permutations(values);
    collection := [];
    for n := 0 to |perms|
      invariant Collect([], perms) == Collect(collection, perms[n..])
      invariant forall c :: c in collection ==> c != [] && exists p :: p in perms && c <= p
    {
      var item := perms[n];
      assert perms[n..][1..] == perms[n + 1..];
      ghost var start := collection;
      var list: seq<T> := [];
      for i := 0 to |item|
        invariant list == item[..i]
        invariant AddPrefixes(start, item, 0) == AddPrefixes(collection, item, i)
        invariant forall c :: c in collection ==> c != [] && exists p :: p in perms && c <= p
      {
        list := list + [item[i]];
        assert list == item[..i + 1];
        var skip := LastSameLengthEqual(collection, list);
        if !skip {
          assert item in perms;
          collection := collection + [list];
        }
      }
    }
  }

  /** The collection only grows: what was collected stays, in place. */
  lemma {:induction false} CollectAppendOnly<T(!new)>(collection: seq<seq<T>>, perms: seq<seq<T>>)
    ensures collection <= Collect(collection, perms)
    decreases |perms|
  {
    if perms != [] {
      AddPrefixesAppendOnly(collection, perms[0], 0);
      CollectAppendOnly(AddPrefixes(collection, perms[0], 0), perms[1..]);
    }
  }

  lemma {:induction false} AddPrefixesAppendOnly<T(!new)>(collection: seq<seq<T>>, item: seq<T>, i: nat)
    requires i <= |item|
    ensures collection <= AddPrefixes(collection, item, i)
    decreases |item| - i
  {
    if i < |item| {
      var list := item[..i + 1];
      var skip := LastOfLength(collection, i + 1) == Some(list);
      AddPrefixesAppendOnly(if skip then collection else collection + [list], item, i + 1);
    }
  }
}
