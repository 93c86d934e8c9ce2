/**
 * scripts/process-experiment-results.js and scripts/calc-experiment-results.js: both
 * read the log run-experiment.js writes, turn each result line into a record, sort the
 * records by the keys given on the command line (largest first), and write them out:
 * the first as SQL `INSERT` statements in chunks of a hundred (and CSV files of query
 * results), the second as one `;`-separated CSV file.
 */
module ExperimentResults {
  import opened Wrappers
  import Text
  import JsText
  import ScriptPaths
  import RunExperiment

  type Num = RunExperiment.Num

  /** A JavaScript value as the scripts see it: a number, a string, `undefined`, or an
      object with its properties in order. */
  datatype Value =
    | Number(n: Num)
    | Str(s: string)
    | Undefined
    | Object(fields: seq<(string, Value)>)

  /** What stops the scripts. */
  datatype Fault =
    | BadJson(line: string)             // `JSON.parse` throws on the first field of a line
    | NoRecords                         // `Object.keys(records[0])` of an empty query result
    | PropertyOfUndefined(key: string)  // `undefined[key]` throws a `TypeError`

  // ---------------------------------------------------------------------------
  // Properties
  // ---------------------------------------------------------------------------

  /** The value of property `key`, or `undefined`. */
  function Get(fields: seq<(string, Value)>, key: string): Value
    decreases |fields|
  {
    if fields == [] then Undefined
    else if fields[0].0 == key then fields[0].1
    else Get(fields[1..], key)
  }

  /** `o[key] = v`: an existing property keeps its place, a new one goes last. */
  function Set(fields: seq<(string, Value)>, key: string, v: Value): seq<(string, Value)>
    decreases |fields|
  {
    if fields == [] then [(key, v)]
    else if fields[0].0 == key then [(key, v)] + fields[1..]
    else [fields[0]] + Set(fields[1..], key, v)
  }

  /** A property that is present is found with the value of its first entry; one that is
      absent reads as `undefined`. */
  lemma {:induction false} GetMeaning(fields: seq<(string, Value)>, key: string)
    ensures Get(fields, key) != Undefined ==> exists k :: 0 <= k < |fields| && fields[k] == (key, Get(fields, key))
    ensures (forall k :: 0 <= k < |fields| ==> fields[k].0 != key) ==> Get(fields, key) == Undefined
    decreases |fields|
  {
    if fields != [] && fields[0].0 != key {
      GetMeaning(fields[1..], key);
      assert forall k :: 0 <= k < |fields| - 1 ==> fields[1..][k] == fields[k + 1];
      if Get(fields, key) != Undefined {
        var k :| 0 <= k < |fields| - 1 && fields[1..][k] == (key, Get(fields, key));
        assert fields[k + 1] == (key, Get(fields, key));
      }
    }
  }

  /** After `o[key] = v`, `o[key]` is `v` and every other property reads as before. */
  lemma {:induction false} SetMeaning(fields: seq<(string, Value)>, key: string, v: Value, other: string)
    ensures Get(Set(fields, key, v), key) == v
    ensures other != key ==> Get(Set(fields, key, v), other) == Get(fields, other)
    decreases |fields|
  {
    if fields != [] && fields[0].0 != key {
      SetMeaning(fields[1..], key, v, other);
    }
  }

  /** `String(v)`, the text a value becomes inside a template literal (`${v}`) or when
      `parseInt` and `parseFloat` read it; `show` renders numbers. */
  function Render(v: Value, show: Num -> string): string
  {
    match v
    case Number(n) => show(n)
    case Str(s) => s
    case Undefined => "undefined"
    case Object(_) => "[object Object]"
  }

  /** The index below `n` whose decimal rendering is `k`, if there is one. */
  function IndexNamed(k: string, n: nat): (r: Option<nat>)
    ensures r.Some? ==> r.value < n && Text.NatToString(r.value) == k
    ensures r.None? ==> forall i :: 0 <= i < n ==> Text.NatToString(i) != k
  {
    if n == 0 then None
    else match IndexNamed(k, n - 1)
      case Some(i) => Some(i)
      case None => if Text.NatToString(n - 1) == k then Some(n - 1) else None
  }

  /** A property of a string: its `length`, or the character at an index written in
      decimal; any other name reads as `undefined`. */
  function StrProperty(s: string, k: string): Value
  {
    if k == "length" then Number(RunExperiment.Finite(|s| as real))
    else match IndexNamed(k, |s|)
      case Some(i) => Str([s[i]])
      case None => Undefined
  }

  /** `value[k]`: an own property of an object, a property of a string, `undefined` for
      a number; reading any property of `undefined` throws a `TypeError`. */
  function Property(value: Value, k: string): (r: Result<Value, Fault>)
    ensures r.Err? <==> value.Undefined?
    ensures r.Err? ==> r.error == PropertyOfUndefined(k)
    ensures value.Object? ==> r == Ok(Get(value.fields, k))
  {
    match value
    case Undefined => Err(PropertyOfUndefined(k))
    case Object(fields) => Ok(Get(fields, k))
    case Str(s) => Ok(StrProperty(s, k))
    case Number(_) => Ok(Undefined)
  }

  /** The walk `key.split(".").forEach(k => val = val[k])`; the first step taken from
      `undefined` throws. */
  function Lookup(value: Value, path: seq<string>): (r: Result<Value, Fault>)
    ensures r.Err? ==> r.error.PropertyOfUndefined? && r.error.key in path
    decreases |path|
  {
    if path == [] then Ok(value)
    else
      match Property(value, path[0])
      case Err(e) => Err(e)
      case Ok(next) => Lookup(next, path[1..])
  }

  /** A walk along `p` and then `q` is a walk along `p + q`; a walk that fails along `p`
      fails the same way along `p + q`. */
  lemma {:induction false} LookupConcat(value: Value, p: seq<string>, q: seq<string>)
    ensures Lookup(value, p + q) ==
      match Lookup(value, p)
      case Err(e) => Err(e)
      case Ok(v) => Lookup(v, q)
    decreases |p|
  {
    if p == [] {
      assert p + q == q;
    } else {
      assert (p + q)[0] == p[0] && (p + q)[1..] == p[1..] + q;
      if Property(value, p[0]).Ok? {
        LookupConcat(Property(value, p[0]).value, p[1..], q);
      }
    }
  }

  /** The walk fails exactly when it reaches `undefined` with steps still to take. */
  lemma {:induction false} LookupFails(value: Value, path: seq<string>)
    ensures Lookup(value, path).Err? <==> exists i :: 0 <= i < |path| && Lookup(value, path[..i]) == Ok(Undefined)
    decreases |path|
  {
    assert path[..0] == [];
    if path != [] && !value.Undefined? {
      var next := Property(value, path[0]).value;
      var rest := path[1..];
      LookupFails(next, rest);
      forall i | 0 <= i < |rest|
        ensures Lookup(value, path[..i + 1]) == Lookup(next, rest[..i])
      {
        assert path[..i + 1][0] == path[0] && path[..i + 1][1..] == rest[..i];
      }
      if exists i :: 0 <= i < |rest| && Lookup(next, rest[..i]) == Ok(Undefined) {
        var i :| 0 <= i < |rest| && Lookup(next, rest[..i]) == Ok(Undefined);
        assert Lookup(value, path[..i + 1]) == Ok(Undefined);
      }
      if exists i :: 0 <= i < |path| && Lookup(value, path[..i]) == Ok(Undefined) {
        var i :| 0 <= i < |path| && Lookup(value, path[..i]) == Ok(Undefined);
        assert i > 0;
        assert Lookup(next, rest[..i - 1]) == Ok(Undefined);
      }
    }
  }

  /** The walk over a dotted key, one step at a time. */
  method Walk(value: Value, key: string) returns (r: Result<Value, Fault>)
    ensures r == Lookup(value, Text.Split(key, '.'))
  {
    var path := Text.Split(key, '.');
    var v := value;
    for i := 0 to |path|
      invariant Lookup(value, path[..i]) == Ok(v)
    {
      LookupConcat(value, path[..i], [path[i]]);
      assert path[..i + 1] == path[..i] + [path[i]];
      var next := Property(v, path[i]);
      if next.Err? {
        LookupConcat(value, path[..i + 1], path[i + 1..]);
        assert path[..i + 1] + path[i + 1..] == path;
        return next;
      }
      v := next.value;
    }
    assert path[..|path|] == path;
    r := Ok(v);
  }

  /** A record's value under a dotted key such as `params.sa-seed`. */
  function KeyValue(record: Value, key: string): Result<Value, Fault>
  {
    Lookup(record, Text.Split(key, '.'))
  }

  /** The dotted key `a.b` reads property `b` of property `a`, and throws when property
      `a` is `undefined`. */
  lemma KeyValueDotted(record: Value, a: string, b: string)
    requires '.' !in a && '.' !in b && !record.Undefined?
    ensures Property(record, a).value.Undefined? ==> KeyValue(record, a + "." + b) == Err(PropertyOfUndefined(b))
    ensures KeyValue(record, a + "." + b) == Property(Property(record, a).value, b)
  {
    var path := [a, b];
    Text.SplitJoin(path, '.');
    assert Text.Join(path, ".") == a + "." + b by {
      assert path[1..] == [b];
    }
    assert Text.Split(a + "." + b, '.') == path;
    assert path[1..] == [b] && [b][1..] == [];
    var x := Property(record, a).value;
    assert Lookup(record, path) == Lookup(x, [b]);
    assert Lookup(x, [b]) == Property(x, b) by {
      if Property(x, b).Ok? {
        assert Lookup(x, [b]) == Lookup(Property(x, b).value, []);
      }
    }
  }

  // ---------------------------------------------------------------------------
  // Parsing the log
  // ---------------------------------------------------------------------------

  /** The number `parseInt` gives. */
  function IntNum(n: Option<int>): Num
  {
    if n.Some? then RunExperiment.Finite(n.value as real) else RunExperiment.NaN
  }

  /** `parseInt(v)` of a property: the value is turned into text first, so a number is
      read from its rendering and `undefined` gives `NaN`. */
  function ParseIntValue(v: Value, show: Num -> string): Value
  {
    Number(IntNum(JsText.ParseInt(Render(v, show))))
  }

  /** `parseFloat(v)` of a property, read from the text of the value as well. */
  function ParseFloatValue(v: Value, parseFloat: string -> Num, show: Num -> string): Value
  {
    Number(parseFloat(Render(v, show)))
  }

  /** A property that holds the decimal text of an integer is read back as that integer,
      whether it holds the text or the number itself. */
  lemma ParseIntValueMeaning(n: int, show: Num -> string)
    requires show(RunExperiment.Finite(n as real)) == Text.IntToString(n)
    ensures ParseIntValue(Str(Text.IntToString(n)), show) == Number(RunExperiment.Finite(n as real))
    ensures ParseIntValue(Number(RunExperiment.Finite(n as real)), show) == Number(RunExperiment.Finite(n as real))
  {
    JsText.ParseIntRoundTrip(n, "");
    assert Text.IntToString(n) + "" == Text.IntToString(n);
  }

  /** A missing property reads as `NaN`. */
  lemma ParseIntUndefined(show: Num -> string)
    ensures ParseIntValue(Undefined, show) == Number(RunExperiment.NaN)
  {
    var u := "undefined";
    assert forall k :: 0 <= k < |u| ==> !Text.IsDigit(u[k]);
  }

  /** A field of the destructured `split`: `undefined` past the end. */
  function FieldValue(parts: seq<string>, k: nat): (v: Value)
    ensures k < |parts| ==> v == Str(parts[k])
    ensures k >= |parts| ==> v == Undefined
  {
    if k < |parts| then Str(parts[k]) else Undefined
  }

  /** The properties `keys` rewritten one after the other with `parseInt`. */
  function ParseInts(params: seq<(string, Value)>, keys: seq<string>, show: Num -> string): seq<(string, Value)>
    decreases |keys|
  {
    if keys == [] then params
    else ParseInts(Set(params, keys[0], ParseIntValue(Get(params, keys[0]), show)), keys[1..], show)
  }

  /** Rewriting distinct keys turns each into what `parseInt` makes of it and leaves every
      other property as it was. */
  lemma {:induction false} ParseIntsMeaning(params: seq<(string, Value)>, keys: seq<string>, show: Num -> string, k: string)
    requires forall i, j :: 0 <= i < j < |keys| ==> keys[i] != keys[j]
    ensures k in keys ==> Get(ParseInts(params, keys, show), k) == ParseIntValue(Get(params, k), show)
    ensures k !in keys ==> Get(ParseInts(params, keys, show), k) == Get(params, k)
    decreases |keys|
  {
    if keys != [] {
      var next := Set(params, keys[0], ParseIntValue(Get(params, keys[0]), show));
      ParseIntsMeaning(next, keys[1..], show, k);
      SetMeaning(params, keys[0], ParseIntValue(Get(params, keys[0]), show), k);
      if k == keys[0] {
        assert k !in keys[1..];
      }
    }
  }

  /** The integer parameters read before `sa-cool-fact`. */
  const FirstInts: seq<string> := ["sa-seed", "sa-max-iter"]

  /** The integer parameters read after `sa-cool-fact`. */
  const LaterInts: seq<string> := ["sa-min-swap", "sa-max-swap", "sa-max-del", "sa-max-ins"]

  /** The parameter read with `parseFloat`. */
  const CoolFact: string := "sa-cool-fact"

  /** The seven parameter names differ from one another. */
  lemma ParamNamesDistinct()
    ensures forall i, j :: 0 <= i < j < |FirstInts| ==> FirstInts[i] != FirstInts[j]
    ensures forall i, j :: 0 <= i < j < |LaterInts| ==> LaterInts[i] != LaterInts[j]
    ensures CoolFact !in FirstInts && CoolFact !in LaterInts
    ensures forall i :: 0 <= i < |FirstInts| ==> FirstInts[i] !in LaterInts
  {
    assert FirstInts[0][3] != FirstInts[1][3];
    assert LaterInts[0][4] != LaterInts[1][4] && LaterInts[0][4] != LaterInts[2][4] && LaterInts[0][4] != LaterInts[3][4];
    assert LaterInts[1][7] != LaterInts[2][7] && LaterInts[1][7] != LaterInts[3][7];
    assert LaterInts[2][7] != LaterInts[3][7];
    assert CoolFact[3] != FirstInts[0][3] && |CoolFact| != |FirstInts[1]|;
    assert forall j :: 0 <= j < |LaterInts| ==> CoolFact[3] != LaterInts[j][3];
    assert forall j :: 0 <= j < |LaterInts| ==> FirstInts[0][3] != LaterInts[j][3];
    assert LaterInts[0][4] != FirstInts[1][4] && |LaterInts[2]| != |FirstInts[1]| && |LaterInts[3]| != |FirstInts[1]|;
    assert LaterInts[1][7] != FirstInts[1][7];
  }

  /** The parameters with their numeric entries rewritten, in the order of the script:
      `sa-seed` and `sa-max-iter` with `parseInt`, `sa-cool-fact` with `parseFloat`, the
      other four with `parseInt`. */
  function NumericParams(params: seq<(string, Value)>, parseFloat: string -> Num, show: Num -> string): seq<(string, Value)>
  {
    var first := ParseInts(params, FirstInts, show);
    var cooled := Set(first, CoolFact, ParseFloatValue(Get(first, CoolFact), parseFloat, show));
    ParseInts(cooled, LaterInts, show)
  }

  /** Every rewritten parameter holds what `parseInt` or `parseFloat` makes of the text
      or number it held; every other parameter is unchanged. */
  lemma NumericParamsMeaning(params: seq<(string, Value)>, parseFloat: string -> Num, show: Num -> string, k: string)
    ensures k in FirstInts + LaterInts ==> Get(NumericParams(params, parseFloat, show), k) == ParseIntValue(Get(params, k), show)
    ensures k == CoolFact ==> Get(NumericParams(params, parseFloat, show), k) == ParseFloatValue(Get(params, k), parseFloat, show)
    ensures k !in FirstInts + LaterInts && k != CoolFact ==> Get(NumericParams(params, parseFloat, show), k) == Get(params, k)
  {
    ParamNamesDistinct();
    var first := ParseInts(params, FirstInts, show);
    var cooled := Set(first, CoolFact, ParseFloatValue(Get(first, CoolFact), parseFloat, show));
    ParseIntsMeaning(params, FirstInts, show, k);
    ParseIntsMeaning(cooled, LaterInts, show, k);
    ParseIntsMeaning(params, FirstInts, show, CoolFact);
    SetMeaning(first, CoolFact, ParseFloatValue(Get(first, CoolFact), parseFloat, show), k);
    assert k in FirstInts + LaterInts <==> k in FirstInts || k in LaterInts;
  }

  /** A result record: the parsed option key and six fields of the log line. */
  datatype Record = Record(params: seq<(string, Value)>, avgScore: Value, avgTime: Value, bestScore: Value,
                           bestTime: Value, bestIters: Value, bestSol: Value)

  /** The record as the object the dotted sort keys walk. */
  function AsValue(r: Record): Value
  {
    Object([("params", Object(r.params)), ("avgScore", r.avgScore), ("avgTime", r.avgTime),
            ("bestScore", r.bestScore), ("bestTime", r.bestTime), ("bestIters", r.bestIters),
            ("bestSol", r.bestSol)])
  }

  /** A log line turned into a record, with `JSON.parse` of its first field given as
      `parseJson` (`None` when it throws). The best score is read with `parseInt`. */
  function ParseLine(line: string, parseJson: string -> Option<seq<(string, Value)>>, parseFloat: string -> Num,
                     show: Num -> string)
    : Result<Record, Fault>
  {
    var parts := Text.Split(line, ';');
    match parseJson(parts[0])
    case None => Err(BadJson(line))
    case Some(params) =>
      Ok(Record(NumericParams(params, parseFloat, show),
                ParseFloatValue(FieldValue(parts, 1), parseFloat, show), ParseFloatValue(FieldValue(parts, 2), parseFloat, show),
                ParseIntValue(FieldValue(parts, 3), show), ParseIntValue(FieldValue(parts, 4), show),
                ParseIntValue(FieldValue(parts, 5), show), FieldValue(parts, 6)))
  }

  /** A line the parser keeps: it does not start with `Permutation`. */
  function IsResult(line: string): bool
  {
    !("Permutation" <= line)
  }

  /** `parseLine` as a function of the line alone. */
  function LineParser(parseJson: string -> Option<seq<(string, Value)>>, parseFloat: string -> Num, show: Num -> string)
    : string -> Result<Record, Fault>
  {
    (line: string) => ParseLine(line, parseJson, parseFloat, show)
  }

  /** `lines.map(parseLine)`: the records of the lines, in order; the first line
      `JSON.parse` rejects stops it. */
  function ParseLines(lines: seq<string>, parse: string -> Result<Record, Fault>): (r: Result<seq<Record>, Fault>)
    ensures r.Ok? ==> |r.value| == |lines| && forall k :: 0 <= k < |lines| ==> parse(lines[k]) == Ok(r.value[k])
    ensures r.Err? ==> exists k :: 0 <= k < |lines| && parse(lines[k]) == Err(r.error)
    decreases |lines|
  {
    if lines == [] then Ok([])
    else
      match ParseLines(lines[..|lines| - 1], parse)
      case Err(e) => Err(e)
      case Ok(done) =>
        match parse(lines[|lines| - 1])
        case Err(e) => Err(e)
        case Ok(record) => Ok(done + [record])
  }

  /** Without a rejected line there is one record per line, each the one its line gives;
      otherwise the fault is that of the first rejected line. */
  lemma {:induction false} ParseLinesMeaning(lines: seq<string>, parse: string -> Result<Record, Fault>)
    ensures ParseLines(lines, parse).Ok? <==> forall k :: 0 <= k < |lines| ==> parse(lines[k]).Ok?
    ensures ParseLines(lines, parse).Ok? ==>
      |ParseLines(lines, parse).value| == |lines|
      && forall k :: 0 <= k < |lines| ==> parse(lines[k]) == Ok(ParseLines(lines, parse).value[k])
    ensures ParseLines(lines, parse).Err? ==>
      exists k :: 0 <= k < |lines| && parse(lines[k]) == Err(ParseLines(lines, parse).error)
        && forall j :: 0 <= j < k ==> parse(lines[j]).Ok?
    decreases |lines|
  {
    if lines != [] {
      var init := lines[..|lines| - 1];
      ParseLinesMeaning(init, parse);
      assert forall k :: 0 <= k < |init| ==> init[k] == lines[k];
    }
  }

  /** `parser(raw)`: the lines that are not progress lines, each made a record. */
  function Parser(raw: string, parseJson: string -> Option<seq<(string, Value)>>, parseFloat: string -> Num,
                  show: Num -> string)
    : (r: Result<seq<Record>, Fault>)
    ensures var lines := JsText.Filter(Text.Split(raw, '\n'), IsResult);
            r.Ok? ==> |r.value| == |lines|
                      && forall k :: 0 <= k < |lines| ==>
                           IsResult(lines[k]) && LineParser(parseJson, parseFloat, show)(lines[k]) == Ok(r.value[k])
  {
    JsText.FilterMeaning(Text.Split(raw, '\n'), IsResult);
    ParseLines(JsText.Filter(Text.Split(raw, '\n'), IsResult), LineParser(parseJson, parseFloat, show))
  }

  /** Progress lines are dropped, result lines are kept: run-experiment.js writes the
      former with `Permutation` in front and the latter with the `{` of the option key. */
  lemma ProgressAndResultLines(i: nat, combo: RunExperiment.Combo, s: RunExperiment.Summary, show: Num -> string)
    ensures !IsResult(RunExperiment.ProgressLine(i))
    ensures IsResult(RunExperiment.LogLine(RunExperiment.OptionsKey(combo), s, show))
  {
    var progress := RunExperiment.ProgressLine(i);
    assert progress[..|"Permutation"|] == "Permutation";
    var key := RunExperiment.OptionsKey(combo);
    RunExperiment.OptionsKeyShape(combo);
    assert key[0] == '{';
    var fields := RunExperiment.LogFields(key, s, show);
    var line := RunExperiment.LogLine(key, s, show);
    assert line[0] == '{' by {
      assert Text.Join(fields, ";") == key + (";" + Text.Join(fields[1..], ";"));
    }
  }

  /** A line run-experiment.js logs is read back field by field: the averages with
      `parseFloat`, and the best run's score, time and iterations with `parseInt`. */
  lemma ParseLogLine(key: string, s: RunExperiment.Summary, show: Num -> string,
                     parseJson: string -> Option<seq<(string, Value)>>, parseFloat: string -> Num)
    requires ';' !in key && ';' !in RunExperiment.ShowText(s.best.sol)
    requires forall n :: ';' !in show(n)
    requires parseJson(key).Some?
    ensures var line := RunExperiment.LogLine(key, s, show);
      var r := ParseLine(line[..|line| - 1], parseJson, parseFloat, show);
      r.Ok?
      && r.value.avgScore == Number(parseFloat(show(s.avgScore)))
      && r.value.avgTime == Number(parseFloat(show(s.avgTime)))
      && r.value.bestScore == Number(IntNum(JsText.ParseInt(show(s.best.score))))
      && r.value.bestTime == Number(IntNum(JsText.ParseInt(show(s.best.time))))
      && r.value.bestIters == Number(IntNum(JsText.ParseInt(RunExperiment.ShowInt(s.best.iters))))
      && r.value.bestSol == Str(RunExperiment.ShowText(s.best.sol))
  {
    RunExperiment.LogLineFields(key, s, show);
  }
}
