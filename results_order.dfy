/**
 * The `sort` of scripts/process-experiment-results.js and scripts/calc-experiment-results.js:
 * records are sorted in place, largest first, by the first of the command-line keys on
 * which two records differ. Each key may be dotted (`params.sa-seed`) and is resolved by
 * walking nested properties; values are compared with JavaScript's `<` and `>`.
 */
module ResultsOrder {
  import opened Wrappers
  import Text
  import ExperimentResults
  import opened RunExperiment

  type Value = ExperimentResults.Value
  type Record = ExperimentResults.Record

  /** String `<` in JavaScript: lexicographic, a proper prefix coming first. */
  predicate StrLess(s: string, t: string)
    decreases |s|
  {
    if s == [] then t != []
    else if t == [] then false
    else if s[0] != t[0] then s[0] < t[0]
    else StrLess(s[1..], t[1..])
  }

  /** `a < b` between two property values: numbers compare numerically (`NaN` with
      nothing), strings lexicographically, anything else is left uncompared. */
  predicate Less(a: Value, b: Value)
  {
    if a.Number? && b.Number? then Greater(b.n, a.n)
    else if a.Str? && b.Str? then StrLess(a.s, b.s)
    else false
  }

  /** Neither value is smaller than the other. */
  predicate Tied(a: Value, b: Value)
  {
    !Less(a, b) && !Less(b, a)
  }

  /** The value of `record` under the dotted `key`, or the `TypeError` the walk throws. */
  function Key(record: Record, key: string): (r: Result<Value, ExperimentResults.Fault>)
    ensures r.Err? ==> r.error.PropertyOfUndefined? && r.error.key in Text.Split(key, '.')
  {
    ExperimentResults.KeyValue(ExperimentResults.AsValue(record), key)
  }

  /** The comparator's two walks along `path`: a step of `a`'s value, then the same step of
      `b`'s, as the `forEach` takes them; the first step from `undefined` throws. */
  function WalkBoth(x: Value, y: Value, path: seq<string>): Result<(Value, Value), ExperimentResults.Fault>
    decreases |path|
  {
    if path == [] then Ok((x, y))
    else
      match ExperimentResults.Property(x, path[0])
      case Err(e) => Err(e)
      case Ok(x') =>
        match ExperimentResults.Property(y, path[0])
        case Err(e) => Err(e)
        case Ok(y') => WalkBoth(x', y', path[1..])
  }

  /** The two walks together succeed exactly when each walk alone does, and then end
      where each alone ends. */
  lemma {:induction false} WalkBothMeaning(x: Value, y: Value, path: seq<string>)
    ensures WalkBoth(x, y, path).Ok? <==>
      ExperimentResults.Lookup(x, path).Ok? && ExperimentResults.Lookup(y, path).Ok?
    ensures WalkBoth(x, y, path).Ok? ==>
      WalkBoth(x, y, path).value == (ExperimentResults.Lookup(x, path).value, ExperimentResults.Lookup(y, path).value)
    decreases |path|
  {
    if path != [] && !x.Undefined? && !y.Undefined? {
      WalkBothMeaning(ExperimentResults.Property(x, path[0]).value, ExperimentResults.Property(y, path[0]).value, path[1..]);
    }
  }

  /** The walks of one sort key over two records. */
  function KeyPair(key: string, a: Record, b: Record): Result<(Value, Value), ExperimentResults.Fault>
  {
    WalkBoth(ExperimentResults.AsValue(a), ExperimentResults.AsValue(b), Text.Split(key, '.'))
  }

  /** The walks of a key succeed exactly when the key can be read on both records. */
  lemma KeyPairMeaning(key: string, a: Record, b: Record)
    ensures KeyPair(key, a, b).Ok? <==> Key(a, key).Ok? && Key(b, key).Ok?
    ensures KeyPair(key, a, b).Ok? ==> KeyPair(key, a, b).value == (Key(a, key).value, Key(b, key).value)
  {
    WalkBothMeaning(ExperimentResults.AsValue(a), ExperimentResults.AsValue(b), Text.Split(key, '.'));
  }

  /** The comparator given to `records.sort`: 1 when `a` goes after `b` (its value is
      smaller on the first key where they differ), -1 when it goes before, 0 when no key
      tells them apart; it throws when a key it reaches walks through `undefined`. */
  function Compare(keys: seq<string>, a: Record, b: Record): (r: Result<int, ExperimentResults.Fault>)
    ensures r.Ok? ==> -1 <= r.value <= 1
    decreases |keys|
  {
    if keys == [] then Ok(0)
    else
      match KeyPair(keys[0], a, b)
      case Err(e) => Err(e)
      case Ok(vals) =>
        if Less(vals.0, vals.1) then Ok(1)
        else if Less(vals.1, vals.0) then Ok(-1)
        else Compare(keys[1..], a, b)
  }

  /** The comparator, key by key and step by step, with the early returns of the source. */
  method Comparator(keys: seq<string>, a: Record, b: Record) returns (r: Result<int, ExperimentResults.Fault>)
    ensures r == Compare(keys, a, b)
  {
    for i := 0 to |keys|
      invariant Compare(keys, a, b) == Compare(keys[i..], a, b)
    {
      assert keys[i..][0] == keys[i] && keys[i..][1..] == keys[i + 1..];
      var path := Text.Split(keys[i], '.');
      var valA, valB := ExperimentResults.AsValue(a), ExperimentResults.AsValue(b);
      for k := 0 to |path|
        invariant KeyPair(keys[i], a, b) == WalkBoth(valA, valB, path[k..])
      {
        assert path[k..][0] == path[k] && path[k..][1..] == path[k + 1..];
        var nextA := ExperimentResults.Property(valA, path[k]);
        if nextA.Err? {
          return Err(nextA.error);
        }
        var nextB := ExperimentResults.Property(valB, path[k]);
        if nextB.Err? {
          return Err(nextB.error);
        }
        valA, valB := nextA.value, nextB.value;
      }
      assert path[|path|..] == [];
      if Less(valA, valB) {
        return Ok(1);
      }
      if Less(valB, valA) {
        return Ok(-1);
      }
    }
    return Ok(0);
  }

  lemma {:induction false} StrLessIrreflexive(s: string)
    ensures !StrLess(s, s)
    decreases |s|
  {
    if s != [] {
      StrLessIrreflexive(s[1..]);
    }
  }

  lemma {:induction false} StrLessAsymmetric(s: string, t: string)
    ensures StrLess(s, t) ==> !StrLess(t, s)
    decreases |s|
  {
    if s != [] && t != [] && s[0] == t[0] {
      StrLessAsymmetric(s[1..], t[1..]);
    }
  }

  /** Two different strings are always ordered one way or the other. */
  lemma {:induction false} StrLessTotal(s: string, t: string)
    ensures s != t ==> StrLess(s, t) || StrLess(t, s)
    decreases |s|
  {
    if s != [] && t != [] && s[0] == t[0] {
      StrLessTotal(s[1..], t[1..]);
      if s[1..] == t[1..] {
        assert s == [s[0]] + s[1..] && t == [t[0]] + t[1..];
      }
    }
  }

  lemma {:induction false} StrLessTransitive(s: string, t: string, u: string)
    ensures StrLess(s, t) && StrLess(t, u) ==> StrLess(s, u)
    decreases |s|
  {
    if s != [] && t != [] && u != [] && s[0] == t[0] && t[0] == u[0] {
      StrLessTransitive(s[1..], t[1..], u[1..]);
    }
  }

  /** JavaScript's `<` on two values never holds both ways, nor of a value and itself. */
  lemma LessStrict(a: Value, b: Value)
    ensures Less(a, b) ==> !Less(b, a)
    ensures !Less(a, a)
  {
    if a.Str? && b.Str? {
      StrLessAsymmetric(a.s, b.s);
    }
    if a.Str? {
      StrLessIrreflexive(a.s);
    }
  }

  /** Swapping the arguments of the comparator negates its answer, and it throws one way
      exactly when it throws the other. */
  lemma {:induction false} CompareAntisymmetric(keys: seq<string>, a: Record, b: Record)
    ensures Compare(keys, b, a).Ok? <==> Compare(keys, a, b).Ok?
    ensures Compare(keys, a, b).Ok? ==> Compare(keys, b, a).value == -Compare(keys, a, b).value
    decreases |keys|
  {
    if keys != [] {
      KeyPairMeaning(keys[0], a, b);
      KeyPairMeaning(keys[0], b, a);
      if KeyPair(keys[0], a, b).Ok? {
        LessStrict(Key(a, keys[0]).value, Key(b, keys[0]).value);
      }
      CompareAntisymmetric(keys[1..], a, b);
    }
  }

  /** Every key can be read on the record. */
  predicate Readable(keys: seq<string>, r: Record)
  {
    forall j :: 0 <= j < |keys| ==> Key(r, keys[j]).Ok?
  }

  /** A record whose keys can all be read is tied with itself. */
  lemma {:induction false} CompareReflexive(keys: seq<string>, a: Record)
    requires Readable(keys, a)
    ensures Compare(keys, a, a) == Ok(0)
    decreases |keys|
  {
    if keys != [] {
      KeyPairMeaning(keys[0], a, a);
      LessStrict(Key(a, keys[0]).value, Key(a, keys[0]).value);
      assert forall j :: 0 <= j < |keys| - 1 ==> keys[1..][j] == keys[j + 1];
      CompareReflexive(keys[1..], a);
    }
  }

  /** Key `j` can be read on both records and leaves them tied. */
  predicate TiedAt(keys: seq<string>, a: Record, b: Record, j: nat)
    requires j < |keys|
  {
    Key(a, keys[j]).Ok? && Key(b, keys[j]).Ok? && Tied(Key(a, keys[j]).value, Key(b, keys[j]).value)
  }

  /** The two records are readable and tied on the keys before index `i`. */
  predicate TiedBefore(keys: seq<string>, a: Record, b: Record, i: nat)
    requires i <= |keys|
  {
    forall j :: 0 <= j < i ==> TiedAt(keys, a, b, j)
  }

  /** The comparator returns 0 exactly when every key is read and none tells the records
      apart; 1 (`a` after `b`) exactly when the first key that does gives `a` the smaller
      value; and throws exactly when a key reached before any difference cannot be read
      on one of them. */
  lemma CompareMeaning(keys: seq<string>, a: Record, b: Record)
    ensures Compare(keys, a, b) == Ok(0) <==> TiedBefore(keys, a, b, |keys|)
    ensures Compare(keys, a, b) == Ok(1) <==>
      exists i :: 0 <= i < |keys| && TiedBefore(keys, a, b, i) && Key(a, keys[i]).Ok? && Key(b, keys[i]).Ok?
        && Less(Key(a, keys[i]).value, Key(b, keys[i]).value)
    ensures Compare(keys, a, b).Err? <==>
      exists i :: 0 <= i < |keys| && TiedBefore(keys, a, b, i) && (Key(a, keys[i]).Err? || Key(b, keys[i]).Err?)
  {
    CompareTied(keys, a, b);
    CompareAfter(keys, a, b);
    CompareThrows(keys, a, b);
  }

  /** Being tied on the first i + 1 keys is being tied on the first key and on the i keys
      after it. */
  lemma TiedShift(keys: seq<string>, a: Record, b: Record)
    requires keys != []
    ensures forall i :: 0 <= i < |keys| ==>
      (TiedBefore(keys, a, b, i + 1) <==> TiedAt(keys, a, b, 0) && TiedBefore(keys[1..], a, b, i))
  {
    var rest := keys[1..];
    assert forall j :: 0 <= j < |rest| ==> (TiedAt(rest, a, b, j) <==> TiedAt(keys, a, b, j + 1));
    forall i | 0 <= i < |keys|
      ensures TiedBefore(keys, a, b, i + 1) <==> TiedAt(keys, a, b, 0) && TiedBefore(keys[1..], a, b, i)
    {
      if TiedBefore(keys, a, b, i + 1) {
        forall j | 0 <= j < i ensures TiedAt(rest, a, b, j) {
          assert TiedAt(keys, a, b, j + 1);
        }
      }
      if TiedAt(keys, a, b, 0) && TiedBefore(rest, a, b, i) {
        forall j | 0 <= j < i + 1 ensures TiedAt(keys, a, b, j) {
          if j > 0 { assert TiedAt(rest, a, b, j - 1); }
        }
      }
    }
  }

  /** The comparator answers 0 exactly when every key is read and ties. */
  lemma {:induction false} CompareTied(keys: seq<string>, a: Record, b: Record)
    ensures Compare(keys, a, b) == Ok(0) <==> TiedBefore(keys, a, b, |keys|)
    decreases |keys|
  {
    if keys != [] {
      CompareTied(keys[1..], a, b);
      KeyPairMeaning(keys[0], a, b);
      TiedShift(keys, a, b);
      if KeyPair(keys[0], a, b).Ok? {
        LessStrict(Key(a, keys[0]).value, Key(b, keys[0]).value);
      }
      if KeyPair(keys[0], a, b).Err? {
        assert !TiedAt(keys, a, b, 0);
      }
    }
  }

  /** The comparator answers 1 exactly when the first key that is not a tie is read on
      both records and gives `a` the smaller value. */
  lemma {:induction false} CompareAfter(keys: seq<string>, a: Record, b: Record)
    ensures Compare(keys, a, b) == Ok(1) <==>
      exists i :: 0 <= i < |keys| && TiedBefore(keys, a, b, i) && Key(a, keys[i]).Ok? && Key(b, keys[i]).Ok?
        && Less(Key(a, keys[i]).value, Key(b, keys[i]).value)
    decreases |keys|
  {
    if keys != [] {
      var rest := keys[1..];
      CompareAfter(rest, a, b);
      KeyPairMeaning(keys[0], a, b);
      TiedShift(keys, a, b);
      if KeyPair(keys[0], a, b).Ok? {
        LessStrict(Key(a, keys[0]).value, Key(b, keys[0]).value);
      }
      if Compare(keys, a, b) == Ok(1) && !(KeyPair(keys[0], a, b).Ok? && Less(Key(a, keys[0]).value, Key(b, keys[0]).value)) {
        var i :| 0 <= i < |rest| && TiedBefore(rest, a, b, i) && Key(a, rest[i]).Ok? && Key(b, rest[i]).Ok?
          && Less(Key(a, rest[i]).value, Key(b, rest[i]).value);
        assert keys[i + 1] == rest[i];
        assert TiedBefore(keys, a, b, i + 1);
      }
      if exists i :: 0 <= i < |keys| && TiedBefore(keys, a, b, i) && Key(a, keys[i]).Ok? && Key(b, keys[i]).Ok?
           && Less(Key(a, keys[i]).value, Key(b, keys[i]).value) {
        var i :| 0 <= i < |keys| && TiedBefore(keys, a, b, i) && Key(a, keys[i]).Ok? && Key(b, keys[i]).Ok?
          && Less(Key(a, keys[i]).value, Key(b, keys[i]).value);
        if i > 0 {
          assert TiedAt(keys, a, b, 0);
          assert TiedBefore(rest, a, b, i - 1);
          assert rest[i - 1] == keys[i];
        }
      }
    }
  }

  /** The comparator throws exactly when a key reached while the records still tie cannot
      be read on one of them. */
  lemma {:induction false} CompareThrows(keys: seq<string>, a: Record, b: Record)
    ensures Compare(keys, a, b).Err? <==>
      exists i :: 0 <= i < |keys| && TiedBefore(keys, a, b, i) && (Key(a, keys[i]).Err? || Key(b, keys[i]).Err?)
    decreases |keys|
  {
    if keys != [] {
      var rest := keys[1..];
      CompareThrows(rest, a, b);
      KeyPairMeaning(keys[0], a, b);
      TiedShift(keys, a, b);
      if KeyPair(keys[0], a, b).Ok? {
        LessStrict(Key(a, keys[0]).value, Key(b, keys[0]).value);
      }
      if KeyPair(keys[0], a, b).Err? {
        assert TiedBefore(keys, a, b, 0);
      }
      if Compare(keys, a, b).Err? && KeyPair(keys[0], a, b).Ok? {
        var i :| 0 <= i < |rest| && TiedBefore(rest, a, b, i) && (Key(a, rest[i]).Err? || Key(b, rest[i]).Err?);
        assert keys[i + 1] == rest[i];
        assert TiedBefore(keys, a, b, i + 1);
      }
      if exists i :: 0 <= i < |keys| && TiedBefore(keys, a, b, i) && (Key(a, keys[i]).Err? || Key(b, keys[i]).Err?) {
        var i :| 0 <= i < |keys| && TiedBefore(keys, a, b, i) && (Key(a, keys[i]).Err? || Key(b, keys[i]).Err?);
        if i > 0 {
          assert TiedAt(keys, a, b, 0);
          assert TiedBefore(rest, a, b, i - 1);
          assert rest[i - 1] == keys[i];
        }
      }
    }
  }

  /** A comparison that answers has read the first key on both records; one where the
      first key cannot be read on either record throws. */
  lemma FirstKeyRead(keys: seq<string>, a: Record, b: Record)
    requires keys != []
    ensures Compare(keys, a, b).Ok? ==> Key(a, keys[0]).Ok? && Key(b, keys[0]).Ok?
  {
    KeyPairMeaning(keys[0], a, b);
  }

  /** Two records whose keys can all be read always compare without throwing. */
  lemma {:induction false} CompareReadable(keys: seq<string>, a: Record, b: Record)
    requires Readable(keys, a) && Readable(keys, b)
    ensures Compare(keys, a, b).Ok?
    decreases |keys|
  {
    if keys != [] {
      KeyPairMeaning(keys[0], a, b);
      assert forall j :: 0 <= j < |keys| - 1 ==> keys[1..][j] == keys[j + 1];
      CompareReadable(keys[1..], a, b);
    }
  }

  /** Both values are numbers other than `NaN`, or both are strings. */
  predicate Comparable(x: Value, y: Value)
  {
    (x.Number? && x.n.Finite? && y.Number? && y.n.Finite?) || (x.Str? && y.Str?)
  }

  /** On comparable values, being tied is being equal. */
  lemma TiedComparable(x: Value, y: Value)
    requires Comparable(x, y)
    ensures Tied(x, y) <==> x == y
  {
    if x.Str? {
      StrLessTotal(x.s, y.s);
      LessStrict(x, y);
    }
  }

  /** Every key can be read on the three records and gives them values of one kind
      (numbers other than `NaN`, or strings). */
  predicate AllComparable(keys: seq<string>, a: Record, b: Record, c: Record)
  {
    forall j :: 0 <= j < |keys| ==>
      Key(a, keys[j]).Ok? && Key(b, keys[j]).Ok? && Key(c, keys[j]).Ok?
      && Comparable(Key(a, keys[j]).value, Key(b, keys[j]).value)
      && Comparable(Key(b, keys[j]).value, Key(c, keys[j]).value)
      && Comparable(Key(a, keys[j]).value, Key(c, keys[j]).value)
  }

  /** The comparator answers that `a` does not go after `b`. */
  predicate NotAfter(keys: seq<string>, a: Record, b: Record)
  {
    Compare(keys, a, b).Ok? && Compare(keys, a, b).value <= 0
  }

  /** When every key holds values of one kind, "not after" is transitive, so the
      comparator is a consistent ordering (with `NaN` or mixed kinds it need not be). */
  lemma {:induction false} CompareTransitive(keys: seq<string>, a: Record, b: Record, c: Record)
    requires AllComparable(keys, a, b, c)
    ensures NotAfter(keys, a, b) && NotAfter(keys, b, c) ==> NotAfter(keys, a, c)
    decreases |keys|
  {
    if keys != [] {
      var k := keys[0];
      KeyPairMeaning(k, a, b);
      KeyPairMeaning(k, b, c);
      KeyPairMeaning(k, a, c);
      var x, y, z := Key(a, k).value, Key(b, k).value, Key(c, k).value;
      assert Comparable(x, y) && Comparable(y, z) && Comparable(x, z);
      TiedComparable(x, y);
      TiedComparable(y, z);
      TiedComparable(x, z);
      LessStrict(x, y);
      LessStrict(y, z);
      LessStrict(x, z);
      if x.Str? {
        StrLessTransitive(z.s, y.s, x.s);
      }
      assert forall j :: 0 <= j < |keys| - 1 ==> keys[1..][j] == keys[j + 1];
      CompareTransitive(keys[1..], a, b, c);
    }
  }

  /** Every record is not after the one that follows it. */
  predicate Sorted(keys: seq<string>, s: seq<Record>)
  {
    forall k :: 0 < k < |s| ==> NotAfter(keys, s[k - 1], s[k])
  }

  /** When every key holds values of one kind across the records, a sequence sorted pair
      by pair is sorted throughout: no record is after any later one. */
  lemma {:induction false} SortedThroughout(keys: seq<string>, s: seq<Record>, i: nat, j: nat)
    requires Sorted(keys, s)
    requires forall p, q, r :: 0 <= p < |s| && 0 <= q < |s| && 0 <= r < |s| ==> AllComparable(keys, s[p], s[q], s[r])
    requires i <= j < |s|
    ensures NotAfter(keys, s[i], s[j])
    decreases j - i
  {
    if i == j {
      assert AllComparable(keys, s[i], s[i], s[i]);
      CompareReflexive(keys, s[i]);
    } else {
      SortedThroughout(keys, s, i + 1, j);
      CompareTransitive(keys, s[i], s[i + 1], s[j]);
    }
  }

  /** Every key can be read on every record. */
  predicate AllReadable(keys: seq<string>, s: seq<Record>)
  {
    forall r :: r in s ==> Readable(keys, r)
  }

  /** `records.sort(comparator)` in place, as an insertion sort by swaps, which needs no
      more of the comparator than that swapping its arguments negates it. A comparison
      that throws ends the sort with the records rearranged so far: that cannot happen
      when every key can be read on every record, and always happens when there are two
      records or more and the first key can be read on none of them. */
  method SortRecords(keys: seq<string>, a: array<Record>) returns (failure: Option<ExperimentResults.Fault>)
    modifies a
    ensures multiset(a[..]) == multiset(old(a[..]))
    ensures failure.None? ==> Sorted(keys, a[..])
    ensures AllReadable(keys, old(a[..])) ==> failure.None?
    ensures a.Length >= 2 && keys != [] && (forall r :: r in old(a[..]) ==> Key(r, keys[0]).Err?) ==> failure.Some?
  {
    for i := 0 to a.Length
      invariant SortedRange(Order(keys), a[..], 0, i)
      invariant multiset(a[..]) == multiset(old(a[..]))
      invariant i >= 2 && keys != [] ==> exists r :: r in a[..] && Key(r, keys[0]).Ok?
    {
      ghost var before := a[..];
      failure := InsertLast(keys, a, i);
      SameElements(a[..], before);
      SameElements(before, old(a[..]));
      if failure.Some? {
        assert !AllReadable(keys, old(a[..]));
        return;
      }
      if i == 1 && keys != [] {
        FirstKeyRead(keys, before[0], before[1]);
        assert before[0] in a[..];
      }
    }
    SameElements(a[..], old(a[..]));
    failure := None;
  }

  /** The comparator over the sort keys as the "not after" test the insertion uses. */
  function Order(keys: seq<string>): (Record, Record) -> bool
  {
    (x: Record, y: Record) => NotAfter(keys, x, y)
  }

  /** Every element of `s[lo..hi]` is not after the one that follows it. */
  predicate SortedRange<T>(le: (T, T) -> bool, s: seq<T>, lo: nat, hi: nat)
    requires lo <= hi <= |s|
  {
    forall k :: lo < k < hi ==> le(s[k - 1], s[k])
  }

  /** One step of the insertion: the element at `j` is not after the one before it, so
      exchanging the two keeps the part from the new position onwards in order. */
  lemma SwapStep<T>(le: (T, T) -> bool, s: seq<T>, j: nat, i: nat)
    requires 0 < j <= i < |s|
    requires SortedRange(le, s, 0, j) && SortedRange(le, s, j, i + 1)
    requires j < i ==> le(s[j - 1], s[j + 1])
    requires le(s[j], s[j - 1])
    ensures var t := s[j - 1 := s[j]][j := s[j - 1]];
      SortedRange(le, t, 0, j - 1) && SortedRange(le, t, j - 1, i + 1)
      && (0 < j - 1 ==> le(t[j - 2], t[j]))
  {
  }

  /** Moves `a[i]` left past every record that goes after it; the first comparison is of
      `a[i - 1]` with `a[i]`, and one that throws stops the move. */
  method InsertLast(keys: seq<string>, a: array<Record>, i: nat) returns (failure: Option<ExperimentResults.Fault>)
    requires i < a.Length
    requires SortedRange(Order(keys), a[..], 0, i)
    modifies a
    ensures multiset(a[..]) == multiset(old(a[..]))
    ensures failure.None? ==> SortedRange(Order(keys), a[..], 0, i + 1)
    ensures failure.Some? ==> !AllReadable(keys, old(a[..]))
    ensures failure.None? && i > 0 ==> Compare(keys, old(a[i - 1]), old(a[i])).Ok?
  {
    var j := i;
    while j > 0
      invariant 0 <= j <= i
      invariant SortedRange(Order(keys), a[..], 0, j) && SortedRange(Order(keys), a[..], j, i + 1)
      invariant 0 < j < i ==> Order(keys)(a[j - 1], a[j + 1])
      invariant multiset(a[..]) == multiset(old(a[..]))
      invariant j == i ==> a[..] == old(a[..])
      invariant j < i && i > 0 ==> Compare(keys, old(a[i - 1]), old(a[i])).Ok?
    {
      var c := Comparator(keys, a[j - 1], a[j]);
      if c.Err? {
        SameElements(a[..], old(a[..]));
        assert a[j - 1] in a[..] && a[j] in a[..];
        if AllReadable(keys, old(a[..])) {
          CompareReadable(keys, a[j - 1], a[j]);
          assert false;
        }
        return Some(c.error);
      }
      if c.value <= 0 {
        break;
      }
      CompareAntisymmetric(keys, a[j - 1], a[j]);
      SwapStep(Order(keys), a[..], j, i);
      Swap(a, j);
      j := j - 1;
    }
    failure := None;
  }

  /** Sequences with the same multiset hold the same elements. */
  lemma SameElements<T>(s: seq<T>, t: seq<T>)
    requires multiset(s) == multiset(t)
    ensures forall x :: x in s <==> x in t
  {
    forall x
      ensures x in s <==> x in t
    {
      assert x in s <==> x in multiset(s);
      assert x in t <==> x in multiset(t);
    }
  }

  /** Exchanges `a[j - 1]` and `a[j]`. */
  method Swap(a: array<Record>, j: nat)
    requires 0 < j < a.Length
    modifies a
    ensures a[..] == old(a[..])[j - 1 := old(a[j])][j := old(a[j - 1])]
    ensures multiset(a[..]) == multiset(old(a[..]))
  {
    a[j - 1], a[j] := a[j], a[j - 1];
  }
}
