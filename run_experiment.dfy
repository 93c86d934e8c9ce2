/**
 * scripts/run-experiment.js: reads a parameter file, builds every combination of the
 * parameter values that passes the conditions, runs the solver ten times per
 * combination in batches of twenty, and logs per combination the average and the best
 * of the runs.
 */
module RunExperiment {
  import opened Wrappers
  import Text
  import JsText

  /** The `TypeError`s the script runs into. */
  datatype Fault =
    | MissingOptions(line: string)   // a parameter line without `~`
    | NoParameters                   // `params[keys[0]]` of an empty parameter file
    | NoOutput                       // a run printed no non-empty line
    | NoRuns                         // every run of a combination failed

  /** A parameter: its name and the values it takes, as text. */
  datatype Param = Param(name: string, values: seq<string>)

  // ---------------------------------------------------------------------------
  // Parameter lines
  // ---------------------------------------------------------------------------

  /** Index `j` starts a match of `/\#.+/`: a `#` followed by a character `.` matches. */
  predicate CommentAt(s: string, j: nat)
  {
    j + 1 < |s| && s[j] == '#' && !JsText.IsLineTerminator(s[j + 1])
  }

  /** The first match of `/\#.+/` at or after `from`, or `|s|`. */
  function CommentFrom(s: string, from: nat): (i: nat)
    requires from <= |s|
    ensures from <= i <= |s|
    ensures i < |s| ==> CommentAt(s, i)
    ensures forall j :: from <= j < i ==> !CommentAt(s, j)
    decreases |s| - from
  {
    if from == |s| || CommentAt(s, from) then from else CommentFrom(s, from + 1)
  }

  /** Where a match starting at `i` ends: `.+` runs up to the next line terminator. */
  function LineEnd(s: string, i: nat): (k: nat)
    requires i <= |s|
    ensures i <= k <= |s|
    ensures forall m :: i <= m < k ==> !JsText.IsLineTerminator(s[m])
    ensures k < |s| ==> JsText.IsLineTerminator(s[k])
    decreases |s| - i
  {
    if i == |s| || JsText.IsLineTerminator(s[i]) then i else LineEnd(s, i + 1)
  }

  /** `line.replace(/\#.+/, '')`: the first comment is cut out, up to the end of the line. */
  function StripComment(s: string): string
  {
    var i := CommentFrom(s, 0);
    if i == |s| then s else s[..i] + s[LineEnd(s, i + 1)..]
  }

  /** On a line without line terminators the comment runs to the end: what is left is
      the text in front of the first `#` (a `#` as the very last character is kept). */
  lemma StripCommentPlainLine(s: string)
    requires forall k :: 0 <= k < |s| ==> !JsText.IsLineTerminator(s[k])
    ensures StripComment(s) <= s
    ensures forall j :: 0 <= j < |StripComment(s)| && j + 1 < |s| ==> StripComment(s)[j] != '#'
    ensures |StripComment(s)| < |s| ==> s[|StripComment(s)|] == '#'
  {
    var i := CommentFrom(s, 0);
    if i < |s| {
      assert LineEnd(s, i + 1) == |s|;
      assert StripComment(s) == s[..i];
    }
    forall j | 0 <= j < i && j + 1 < |s|
      ensures s[j] != '#'
    {
      assert !CommentAt(s, j);
    }
  }

  /** A line without `#` keeps all of its text. */
  lemma StripCommentNoHash(s: string)
    requires '#' !in s
    ensures StripComment(s) == s
  {
  }

  /** `text.split(c).map(s => s.trim())`. */
  function TrimmedPieces(text: string, c: char): (r: seq<string>)
    ensures |r| == |Text.Split(text, c)| && r != []
    ensures forall k :: 0 <= k < |r| ==> r[k] == JsText.JsTrim(Text.Split(text, c)[k])
  {
    var parts := Text.Split(text, c);
    seq(|parts|, k requires 0 <= k < |parts| => JsText.JsTrim(parts[k]))
  }

  /** A character the `domain:` option drops: `[`, `]` or white space. */
  function Kept(ch: char): bool
  {
    !(ch == '[' || ch == ']' || JsText.IsJsWhiteSpace(ch))
  }

  /** The text of a `domain:` option without the prefix, brackets and white space. */
  function DomainText(opt: string): string
  {
    JsText.Filter(JsText.ReplaceFirst(opt, "domain:", ""), Kept)
  }

  /** `opt.replace("domain:", "").replace(/\[|\]|\s/g, '').split(',')`. */
  function DomainValues(opt: string): seq<string>
  {
    Text.Split(DomainText(opt), ',')
  }

  /** The values of a `domain:` option are the comma-separated pieces of its text once the
      brackets and white space are gone; none holds a comma, a bracket or white space. */
  lemma DomainValuesMeaning(opt: string)
    requires "domain:" <= opt
    ensures DomainText(opt) == JsText.Filter(opt[7..], Kept)
    ensures Text.Join(DomainValues(opt), ",") == DomainText(opt)
    ensures forall k, i :: 0 <= k < |DomainValues(opt)| && 0 <= i < |DomainValues(opt)[k]| ==>
      Kept(DomainValues(opt)[k][i]) && DomainValues(opt)[k][i] != ','
  {
    JsText.ReplaceFirstAtStart(opt, "domain:", "");
    assert JsText.ReplaceFirst(opt, "domain:", "") == opt[7..];
    Text.JoinSplit(DomainText(opt), ',');
    var values := DomainValues(opt);
    forall k, i | 0 <= k < |values| && 0 <= i < |values[k]|
      ensures Kept(values[k][i]) && values[k][i] != ','
    {
      PieceChars(DomainText(opt), ',', k, i);
      JsText.FilterMeaning(opt[7..], Kept);
    }
  }

  /** Every character of a piece of a split is a character of the text. */
  lemma {:induction false} PieceChars(s: string, c: char, k: nat, i: nat)
    requires k < |Text.Split(s, c)| && i < |Text.Split(s, c)[k]|
    ensures Text.Split(s, c)[k][i] in s && Text.Split(s, c)[k][i] != c
  {
    var parts := Text.Split(s, c);
    Text.JoinSplit(s, c);
    JoinHolds(parts, [c], k, i);
  }

  /** A character of a piece is a character of the joined text. */
  lemma {:induction false} JoinHolds(parts: seq<string>, sep: string, k: nat, i: nat)
    requires k < |parts| && i < |parts[k]|
    ensures parts[k][i] in Text.Join(parts, sep)
  {
    if k == 0 {
      if |parts| > 1 {
        assert Text.Join(parts, sep) == parts[0] + (sep + Text.Join(parts[1..], sep));
      }
      assert parts[0][i] in parts[0];
    } else {
      JoinHolds(parts[1..], sep, k - 1, i);
    }
  }

  /** The trimmed text of a `condition:` option. */
  function ConditionText(opt: string): string
  {
    JsText.JsTrim(JsText.ReplaceFirst(opt, "condition:", ""))
  }

  /** One option applied to the values of the parameter being read and to the shared
      condition list. `range:` appends the values `range` expands it to (its floating-point
      stepping is not modelled); `condition:` adds a new condition; `domain:` replaces the
      values; anything else is ignored. */
  function ApplyOption(values: seq<string>, conds: seq<string>, opt: string, opts: seq<string>,
                       range: (string, seq<string>) -> seq<string>): (seq<string>, seq<string>)
  {
    if "range:" <= opt then (values + range(opt, opts), conds)
    else if "condition:" <= opt then
      (values, if ConditionText(opt) in conds then conds else conds + [ConditionText(opt)])
    else if "domain:" <= opt then (DomainValues(opt), conds)
    else (values, conds)
  }

  /** The options `opts` applied in order. */
  function ApplyOptions(values: seq<string>, conds: seq<string>, opts: seq<string>, all: seq<string>,
                        range: (string, seq<string>) -> seq<string>): (seq<string>, seq<string>)
    decreases |opts|
  {
    if opts == [] then (values, conds)
    else
      var before := ApplyOptions(values, conds, opts[..|opts| - 1], all, range);
      ApplyOption(before.0, before.1, opts[|opts| - 1], all, range)
  }

  /** No text occurs twice. */
  predicate Distinct(xs: seq<string>)
  {
    forall i, j :: 0 <= i < j < |xs| ==> xs[i] != xs[j]
  }

  /** `opt` is a `condition:` option with text `c`. */
  predicate Declares(opt: string, c: string)
  {
    "condition:" <= opt && ConditionText(opt) == c
  }

  /** A `condition:` option among `opts` has text `c`. */
  ghost predicate Names(opts: seq<string>, c: string)
  {
    exists k :: 0 <= k < |opts| && Declares(opts[k], c)
  }

  /** One option adds its condition text, if it has one and the text is new. */
  lemma ApplyOptionConditions(values: seq<string>, conds: seq<string>, opt: string, all: seq<string>,
                              range: (string, seq<string>) -> seq<string>)
    ensures Distinct(conds) ==> Distinct(ApplyOption(values, conds, opt, all, range).1)
    ensures conds <= ApplyOption(values, conds, opt, all, range).1
    ensures forall c :: c in ApplyOption(values, conds, opt, all, range).1 <==>
      c in conds || Declares(opt, c)
  {
    var r := ApplyOption(values, conds, opt, all, range).1;
    if "range:" <= opt {
      assert !("condition:" <= opt) by { assert opt[0] == 'r'; }
      assert r == conds;
    } else if "condition:" <= opt {
      var t := ConditionText(opt);
      if t !in conds {
        assert r == conds + [t];
        DistinctSnoc(conds, t);
      }
    } else {
      assert r == conds;
    }
  }

  /** A new text appended to texts without repeats keeps them without repeats. */
  lemma DistinctSnoc(xs: seq<string>, x: string)
    requires x !in xs
    ensures Distinct(xs) ==> Distinct(xs + [x])
  {
  }

  /** The condition list grows without duplicates. */
  lemma {:induction false} ApplyOptionsDistinct(values: seq<string>, conds: seq<string>, opts: seq<string>,
                                                all: seq<string>, range: (string, seq<string>) -> seq<string>)
    requires Distinct(conds)
    ensures Distinct(ApplyOptions(values, conds, opts, all, range).1)
    ensures conds <= ApplyOptions(values, conds, opts, all, range).1
    decreases |opts|
  {
    if opts != [] {
      var before := ApplyOptions(values, conds, opts[..|opts| - 1], all, range);
      ApplyOptionsDistinct(values, conds, opts[..|opts| - 1], all, range);
      ApplyOptionConditions(before.0, before.1, opts[|opts| - 1], all, range);
    }
  }

  /** The condition list ends up holding exactly the conditions it held and those of `opts`. */
  lemma {:induction false} ApplyOptionsConditions(values: seq<string>, conds: seq<string>, opts: seq<string>,
                                                  all: seq<string>, range: (string, seq<string>) -> seq<string>)
    ensures forall c :: c in ApplyOptions(values, conds, opts, all, range).1 <==> c in conds || Names(opts, c)
    decreases |opts|
  {
    if opts != [] {
      var init := opts[..|opts| - 1];
      var opt := opts[|opts| - 1];
      var before := ApplyOptions(values, conds, init, all, range);
      ApplyOptionsConditions(values, conds, init, all, range);
      ApplyOptionConditions(before.0, before.1, opt, all, range);
      NamesSnoc(init, opt);
      assert init + [opt] == opts;
    }
  }

  /** The conditions of one more option. */
  lemma NamesSnoc(opts: seq<string>, opt: string)
    ensures forall c :: Names(opts + [opt], c) <==> Names(opts, c) || Declares(opt, c)
  {
    var all := opts + [opt];
    forall c ensures Names(all, c) <==> Names(opts, c) || Declares(opt, c) {
      if Names(opts, c) {
        var k :| 0 <= k < |opts| && Declares(opts[k], c);
        assert all[k] == opts[k];
      }
      if Declares(opt, c) {
        assert all[|opts|] == opt;
      }
      if Names(all, c) {
        var k :| 0 <= k < |all| && Declares(all[k], c);
        if k < |opts| {
          assert opts[k] == all[k];
        }
      }
    }
  }


  /** The options of a parameter line: the `;`-separated trimmed pieces after the `~`. */
  function OptionsOf(line: string): seq<string>
  {
    var parts := TrimmedPieces(StripComment(line), '~');
    if |parts| < 2 then [] else TrimmedPieces(parts[1], ';')
  }

  /** One parameter line read against the conditions so far. A line without `~` fails:
      the program calls `split` on `undefined`. */
  function ParamLine(line: string, conds: seq<string>, range: (string, seq<string>) -> seq<string>)
    : Result<(Param, seq<string>), Fault>
  {
    var parts := TrimmedPieces(StripComment(line), '~');
    if |parts| < 2 then Err(MissingOptions(line))
    else
      var opts := TrimmedPieces(parts[1], ';');
      var applied := ApplyOptions([], conds, opts, opts, range);
      Ok((Param(parts[0], applied.0), applied.1))
  }

  /** The first parameter called `name`, or -1. */
  function NameIndex(params: seq<Param>, name: string): (i: int)
    ensures -1 <= i < |params|
    ensures i >= 0 ==> params[i].name == name
    ensures forall k :: 0 <= k < |params| && (i < 0 || k < i) ==> params[k].name != name
  {
    if params == [] then -1
    else if params[0].name == name then 0
    else
      var i := NameIndex(params[1..], name);
      if i < 0 then -1 else i + 1
  }

  /** `params[p.name] = p` on an object: an existing entry keeps its place and takes the
      new value, a new name goes last. Integer-like names, which JavaScript lists first,
      are not modelled. */
  function Assign(params: seq<Param>, p: Param): seq<Param>
  {
    var i := NameIndex(params, p.name);
    if i < 0 then params + [p] else params[i := p]
  }

  /** No two parameters share a name. */
  predicate DistinctNames(params: seq<Param>)
  {
    forall i, j :: 0 <= i < j < |params| ==> params[i].name != params[j].name
  }

  /** Assigning keeps names distinct, holds `p` under its name, and leaves the entries of
      the other names where they were. */
  lemma AssignMeaning(params: seq<Param>, p: Param)
    requires DistinctNames(params)
    ensures DistinctNames(Assign(params, p))
    ensures p in Assign(params, p)
    ensures forall k :: 0 <= k < |params| && params[k].name != p.name ==> Assign(params, p)[k] == params[k]
    ensures forall q :: q in Assign(params, p) ==> q == p || (q in params && q.name != p.name)
    ensures |Assign(params, p)| == |params| + (if NameIndex(params, p.name) < 0 then 1 else 0)
  {
    var i := NameIndex(params, p.name);
    if i >= 0 {
      assert Assign(params, p)[i] == p;
    } else {
      assert Assign(params, p)[|params|] == p;
    }
  }

  /** The parameter file's non-empty lines read in order: the parameters by name, and the
      conditions. */
  function Processed(lines: seq<string>, range: (string, seq<string>) -> seq<string>)
    : Result<(seq<Param>, seq<string>), Fault>
    decreases |lines|
  {
    if lines == [] then Ok(([], []))
    else
      match Processed(lines[..|lines| - 1], range)
      case Err(e) => Err(e)
      case Ok(state) =>
        match ParamLine(lines[|lines| - 1], state.1, range)
        case Err(e) => Err(e)
        case Ok(read) => Ok((Assign(state.0, read.0), read.1))
  }

  /** The `forEach` over one line's options: the values of the parameter, and the
      condition list as it stands afterwards. */
  method ReadOptions(opts: seq<string>, conditions0: seq<string>, range: (string, seq<string>) -> seq<string>)
    returns (values: seq<string>, conditions: seq<string>)
    ensures (values, conditions) == ApplyOptions([], conditions0, opts, opts, range)
  {
    values, conditions := [], conditions0;
    for k := 0 to |opts|
      invariant ApplyOptions([], conditions0, opts[..k], opts, range) == (values, conditions)
    {
      var opt := opts[k];
      assert opts[..k + 1][..k] == opts[..k];
      if "range:" <= opt {
        values := values + range(opt, opts);
      } else if "condition:" <= opt {
        var condition := ConditionText(opt);
        if condition !in conditions {
          conditions := conditions + [condition];
        }
      } else if "domain:" <= opt {
        values := DomainValues(opt);
      }
    }
    assert opts[..|opts|] == opts;
  }

  /** The first line that fails decides the outcome: later lines are not read. */
  lemma {:induction false} ProcessedStops(lines: seq<string>, n: nat, range: (string, seq<string>) -> seq<string>)
    requires n <= |lines| && Processed(lines[..n], range).Err?
    ensures Processed(lines, range) == Processed(lines[..n], range)
    decreases |lines| - n
  {
    if n < |lines| {
      assert lines[..n + 1][..n] == lines[..n];
      ProcessedStops(lines, n + 1, range);
    } else {
      assert lines[..n] == lines;
    }
  }

  /** One more line read: a failure of the line stops the reading, otherwise its
      parameter is assigned and its conditions taken over. */
  lemma ProcessedStep(lines: seq<string>, i: nat, range: (string, seq<string>) -> seq<string>)
    requires i < |lines| && Processed(lines[..i], range).Ok?
    ensures var state := Processed(lines[..i], range).value;
      var read := ParamLine(lines[i], state.1, range);
      Processed(lines[..i + 1], range) ==
        if read.Err? then Err(read.error) else Ok((Assign(state.0, read.value.0), read.value.1))
  {
    assert lines[..i + 1][..i] == lines[..i];
  }

  /** The body of the `forEach` over the parameter lines: the line split at `~`, and its
      options read. */
  method ReadParamLine(line: string, conditions: seq<string>, range: (string, seq<string>) -> seq<string>)
    returns (r: Result<(Param, seq<string>), Fault>)
    ensures r == ParamLine(line, conditions, range)
  {
    var parts := TrimmedPieces(StripComment(line), '~');
    if |parts| < 2 {
      return Err(MissingOptions(line));
    }
    var opts := TrimmedPieces(parts[1], ';');
    var values, conditions' := ReadOptions(opts, conditions, range);
    r := Ok((Param(parts[0], values), conditions'));
  }

  /** The `forEach` over the parameter lines. */
  method ProcessLines(lines: seq<string>, range: (string, seq<string>) -> seq<string>)
    returns (r: Result<(seq<Param>, seq<string>), Fault>)
    ensures r == Processed(lines, range)
  {
    var params: seq<Param> := [];
    var conditions: seq<string> := [];
    for i := 0 to |lines|
      invariant Processed(lines[..i], range) == Ok((params, conditions))
    {
      var read := ReadParamLine(lines[i], conditions, range);
      ProcessedStep(lines, i, range);
      if read.Err? {
        r := Err(read.error);
        ProcessedStops(lines, i + 1, range);
        return;
      }
      params := Assign(params, read.value.0);
      conditions := read.value.1;
    }
    assert lines[..|lines|] == lines;
    r := Ok((params, conditions));
  }

  /** `paramsProcessor()` over the text of the parameter file: its non-empty lines. */
  method ParamsProcessor(text: string, range: (string, seq<string>) -> seq<string>)
    returns (r: Result<(seq<Param>, seq<string>), Fault>)
    ensures r == Processed(JsText.Filter(Text.Split(text, '\n'), JsText.Truthy), range)
  {
    var rawParams := JsText.Filter(Text.Split(text, '\n'), JsText.Truthy);
    r := ProcessLines(rawParams, range);
  }

  /** Some line of `lines` has a `condition:` option with text `c`: the last one, or one
      of those before it. */
  ghost predicate Conditioned(lines: seq<string>, c: string)
    decreases |lines|
  {
    lines != [] && (Conditioned(lines[..|lines| - 1], c) || Names(OptionsOf(lines[|lines| - 1]), c))
  }

  /** Some line of `lines` declares a parameter called `name`. */
  ghost predicate Declared(lines: seq<string>, name: string)
  {
    exists j :: 0 <= j < |lines| && |TrimmedPieces(StripComment(lines[j]), '~')| >= 2
      && TrimmedPieces(StripComment(lines[j]), '~')[0] == name
  }

  /** How the last line extends a file that reads without error. */
  lemma ProcessedLast(lines: seq<string>, range: (string, seq<string>) -> seq<string>)
    requires lines != [] && Processed(lines, range).Ok?
    ensures Processed(lines[..|lines| - 1], range).Ok?
    ensures |TrimmedPieces(StripComment(lines[|lines| - 1]), '~')| >= 2
    ensures Processed(lines, range).value ==
      (Assign(Processed(lines[..|lines| - 1], range).value.0,
              Param(TrimmedPieces(StripComment(lines[|lines| - 1]), '~')[0],
                    ApplyOptions([], Processed(lines[..|lines| - 1], range).value.1,
                                 OptionsOf(lines[|lines| - 1]), OptionsOf(lines[|lines| - 1]), range).0)),
       ApplyOptions([], Processed(lines[..|lines| - 1], range).value.1,
                    OptionsOf(lines[|lines| - 1]), OptionsOf(lines[|lines| - 1]), range).1)
  {
  }

  /** A file that reads without error gives distinct conditions, exactly those its lines
      name. */
  lemma {:induction false} ProcessedConditions(lines: seq<string>, range: (string, seq<string>) -> seq<string>)
    requires Processed(lines, range).Ok?
    ensures Distinct(Processed(lines, range).value.1)
    ensures forall c :: c in Processed(lines, range).value.1 <==> Conditioned(lines, c)
    decreases |lines|
  {
    if lines != [] {
      var init := lines[..|lines| - 1];
      var opts := OptionsOf(lines[|lines| - 1]);
      ProcessedLast(lines, range);
      ProcessedConditions(init, range);
      var conds := Processed(init, range).value.1;
      ApplyOptionsDistinct([], conds, opts, opts, range);
      ApplyOptionsConditions([], conds, opts, opts, range);
    }
  }

  /** A file that reads without error gives parameters with distinct names, exactly the
      names its lines declare. */
  lemma {:induction false} ProcessedNames(lines: seq<string>, range: (string, seq<string>) -> seq<string>)
    requires Processed(lines, range).Ok?
    ensures DistinctNames(Processed(lines, range).value.0)
    ensures forall name :: (exists q :: q in Processed(lines, range).value.0 && q.name == name) <==> Declared(lines, name)
    decreases |lines|
  {
    if lines != [] {
      var init := lines[..|lines| - 1];
      var line := lines[|lines| - 1];
      ProcessedLast(lines, range);
      ProcessedNames(init, range);
      var params := Processed(init, range).value.0;
      var p := Processed(lines, range).value.0;
      var name0 := TrimmedPieces(StripComment(line), '~')[0];
      var values := ApplyOptions([], Processed(init, range).value.1, OptionsOf(line), OptionsOf(line), range).0;
      AssignMeaning(params, Param(name0, values));
      DeclaredLast(lines);
      forall name ensures (exists q :: q in p && q.name == name) <==> Declared(init, name) || name0 == name {
        if Declared(init, name) && name != name0 {
          var q :| q in params && q.name == name;
          var k :| 0 <= k < |params| && params[k] == q;
          assert p[k] == q;
        }
      }
    }
  }

  /** Some element of `xs` satisfies `P` exactly when one before the last does or the
      last one does. */
  lemma SomeLast<T>(xs: seq<T>, init: seq<T>, P: T -> bool)
    requires xs != [] && init == xs[..|xs| - 1]
    ensures (exists j :: 0 <= j < |xs| && P(xs[j])) <==>
      (exists j :: 0 <= j < |init| && P(init[j])) || P(xs[|xs| - 1])
  {
    if j :| 0 <= j < |xs| && P(xs[j]) {
      if j < |init| { assert P(init[j]); }
    }
    if j :| 0 <= j < |init| && P(init[j]) {
      assert P(xs[j]);
    }
  }

  /** The names of a file: those of all lines but the last, and the last line's. */
  lemma DeclaredLast(lines: seq<string>)
    requires lines != [] && |TrimmedPieces(StripComment(lines[|lines| - 1]), '~')| >= 2
    ensures forall name :: Declared(lines, name) <==>
      Declared(lines[..|lines| - 1], name) || TrimmedPieces(StripComment(lines[|lines| - 1]), '~')[0] == name
  {
    forall name ensures Declared(lines, name) <==>
      Declared(lines[..|lines| - 1], name) || TrimmedPieces(StripComment(lines[|lines| - 1]), '~')[0] == name
    {
      SomeLast(lines, lines[..|lines| - 1], line => |TrimmedPieces(StripComment(line), '~')| >= 2
                              && TrimmedPieces(StripComment(line), '~')[0] == name);
    }
  }

  // ---------------------------------------------------------------------------
  // Combinations
  // ---------------------------------------------------------------------------

  /** A combination labelled with the parameter names, in the order of the names. */
  type Combo = seq<(string, string)>

  /** `perm` followed by each of `values` in turn. */
  function Row(perm: seq<string>, values: seq<string>): (r: seq<seq<string>>)
    ensures |r| == |values|
    ensures forall k :: 0 <= k < |r| ==> r[k] == perm + [values[k]]
  {
    seq(|values|, k requires 0 <= k < |values| => perm + [values[k]])
  }

  /** Every combination of `perms` extended by every value, combination by combination. */
  function Extend(perms: seq<seq<string>>, values: seq<string>): seq<seq<string>>
    decreases |perms|
  {
    if perms == [] then [] else Extend(perms[..|perms| - 1], values) + Row(perms[|perms| - 1], values)
  }

  /** The combinations of the value lists, the first list varying slowest. */
  function Product(lists: seq<seq<string>>): seq<seq<string>>
    decreases |lists|
  {
    if lists == [] then [[]] else Extend(Product(lists[..|lists| - 1]), lists[|lists| - 1])
  }

  /** Product of the list lengths. */
  function Count(lists: seq<seq<string>>): nat
    decreases |lists|
  {
    if lists == [] then 1 else Count(lists[..|lists| - 1]) * |lists[|lists| - 1]|
  }

  /** Each combination is extended by every value. */
  lemma {:induction false} ExtendCount(perms: seq<seq<string>>, values: seq<string>)
    ensures |Extend(perms, values)| == |perms| * |values|
    decreases |perms|
  {
    if perms != [] {
      ExtendCount(perms[..|perms| - 1], values);
      assert |perms| * |values| == (|perms| - 1) * |values| + |values|;
    }
  }

  /** Extending keeps the order of the combinations: the rows of `a` come before those
      of `b`. */
  lemma {:induction false} ExtendConcat(a: seq<seq<string>>, b: seq<seq<string>>, values: seq<string>)
    ensures Extend(a + b, values) == Extend(a, values) + Extend(b, values)
    decreases |b|
  {
    if b == [] {
      assert a + b == a;
    } else {
      var ab := a + b;
      var init := b[..|b| - 1];
      var row := Row(b[|b| - 1], values);
      assert ab[..|ab| - 1] == a + init && ab[|ab| - 1] == b[|b| - 1];
      ExtendConcat(a, init, values);
      assert Extend(ab, values) == Extend(a + init, values) + row;
      assert Extend(b, values) == Extend(init, values) + row;
      Text.ConcatAssoc(Extend(a, values), Extend(init, values), row);
    }
  }

  /** Every element of an extension is one of the combinations with one of the values. */
  lemma {:induction false} ExtendMember(perms: seq<seq<string>>, values: seq<string>, c: seq<string>)
    ensures c in Extend(perms, values) <==> c != [] && c[..|c| - 1] in perms && c[|c| - 1] in values
    decreases |perms|
  {
    if perms != [] {
      var init := perms[..|perms| - 1];
      var last := perms[|perms| - 1];
      ExtendMember(init, values, c);
      if c in Row(last, values) {
        var k :| 0 <= k < |values| && Row(last, values)[k] == c;
        assert c[..|c| - 1] == last;
      }
      if c != [] && c[..|c| - 1] == last && c[|c| - 1] in values {
        var k :| 0 <= k < |values| && values[k] == c[|c| - 1];
        assert c == last + [values[k]];
        assert Row(last, values)[k] == c;
      }
      if c != [] && c[..|c| - 1] in perms {
        var j :| 0 <= j < |perms| && perms[j] == c[..|c| - 1];
        if j < |init| { assert init[j] == perms[j]; }
      }
    }
  }

  /** There are as many combinations as the product of the list lengths. */
  lemma {:induction false} ProductCount(lists: seq<seq<string>>)
    ensures |Product(lists)| == Count(lists)
    decreases |lists|
  {
    if lists != [] {
      ProductCount(lists[..|lists| - 1]);
      ExtendCount(Product(lists[..|lists| - 1]), lists[|lists| - 1]);
    }
  }

  /** A combination is produced exactly when it picks, for every list, one of its values. */
  lemma {:induction false} ProductMember(lists: seq<seq<string>>, c: seq<string>)
    ensures c in Product(lists) <==> |c| == |lists| && forall i :: 0 <= i < |c| ==> c[i] in lists[i]
    decreases |lists|
  {
    if lists != [] {
      var init := lists[..|lists| - 1];
      ExtendMember(Product(init), lists[|lists| - 1], c);
      if c != [] {
        ProductMember(init, c[..|c| - 1]);
      }
    }
  }

  /** The first list's values in order, each as a one-value combination:
      `params[keys[0]].values.map(p => [p])`. */
  lemma ProductOfOne(values: seq<string>)
    ensures Product([values]) == Row([], values)
  {
    assert [values][..0] == [];
    var empty: seq<seq<string>> := [[]];
    assert empty[..0] == [];
  }

  /** The innermost loop: the combination extended by each value in turn. */
  method RowOf(perm: seq<string>, values: seq<string>) returns (row: seq<seq<string>>)
    ensures row == Row(perm, values)
  {
    row := [];
    for k := 0 to |values|
      invariant row == Row(perm, values[..k])
    {
      row := row + [perm + [values[k]]];
    }
    assert values[..|values|] == values;
  }

  /** The middle loop: the rows of every combination built so far, in order. */
  method ExtendAll(perms: seq<seq<string>>, values: seq<string>) returns (next: seq<seq<string>>)
    ensures next == Extend(perms, values)
  {
    next := [];
    for j := 0 to |perms|
      invariant next == Extend(perms[..j], values)
    {
      assert perms[..j + 1][..j] == perms[..j];
      var row := RowOf(perms[j], values);
      next := next + row;
    }
    assert perms[..|perms|] == perms;
  }

  /** The nested loops that build the combinations. */
  method BuildProduct(lists: seq<seq<string>>) returns (perms: seq<seq<string>>)
    requires lists != []
    ensures perms == Product(lists)
  {
    perms := Row([], lists[0]);
    ProductOfOne(lists[0]);
    assert lists[..1] == [lists[0]];
    for i := 1 to |lists|
      invariant perms == Product(lists[..i])
    {
      assert lists[..i + 1][..i] == lists[..i];
      perms := ExtendAll(perms, lists[i]);
    }
    assert lists[..|lists|] == lists;
  }

  /** The value lists of the parameters, in the order of their names. */
  function ValueLists(params: seq<Param>): (lists: seq<seq<string>>)
    ensures |lists| == |params|
    ensures forall i :: 0 <= i < |params| ==> lists[i] == params[i].values
  {
    seq(|params|, i requires 0 <= i < |params| => params[i].values)
  }

  /** `_perm[keys[i]] = perm[i]` for every `i`: the values paired with the names. */
  function Labelled(params: seq<Param>, perm: seq<string>): (combo: Combo)
    requires |perm| == |params|
    ensures |combo| == |params|
    ensures forall i :: 0 <= i < |combo| ==> combo[i] == (params[i].name, perm[i])
  {
    seq(|params|, i requires 0 <= i < |params| => (params[i].name, perm[i]))
  }

  /** Every condition evaluates to true on the combination. The condition text, with each
      identifier turned into a lookup in the combination, is run by `eval`; `holds` stands
      for that evaluation. */
  predicate Passes(conditions: seq<string>, combo: Combo, holds: (string, Combo) -> bool)
  {
    forall i :: 0 <= i < |conditions| ==> holds(conditions[i], combo)
  }

  /** `permGenerator()`: every labelled combination that passes the conditions, in the
      order the loops build them. An empty parameter file fails on `params[keys[0]]`. */
  function Generated(params: seq<Param>, conditions: seq<string>, holds: (string, Combo) -> bool)
    : Result<seq<Combo>, Fault>
  {
    if params == [] then Err(NoParameters)
    else
      var perms := Product(ValueLists(params));
      var labelled := seq(|perms|, j requires 0 <= j < |perms| =>
        ProductMember(ValueLists(params), perms[j]);
        Labelled(params, perms[j]));
      Ok(JsText.Filter(labelled, combo => Passes(conditions, combo, holds)))
  }

  /** The combinations generated are exactly the choices of one value per parameter, each
      labelled with its parameter's name, that pass every condition. */
  lemma GeneratedMeaning(params: seq<Param>, conditions: seq<string>, holds: (string, Combo) -> bool, combo: Combo)
    requires params != []
    ensures Generated(params, conditions, holds).Ok?
    ensures combo in Generated(params, conditions, holds).value <==>
      |combo| == |params|
      && (forall i :: 0 <= i < |combo| ==> combo[i].0 == params[i].name && combo[i].1 in params[i].values)
      && Passes(conditions, combo, holds)
  {
    var lists := ValueLists(params);
    var perms := Product(lists);
    var labelled := seq(|perms|, j requires 0 <= j < |perms| =>
      ProductMember(lists, perms[j]);
      Labelled(params, perms[j]));
    assert Generated(params, conditions, holds).value == JsText.Filter(labelled, c => Passes(conditions, c, holds));
    JsText.FilterMeaning(labelled, c => Passes(conditions, c, holds));
    if combo in labelled {
      var j :| 0 <= j < |labelled| && labelled[j] == combo;
      ProductMember(lists, perms[j]);
    }
    if |combo| == |params| && forall i :: 0 <= i < |combo| ==> combo[i].0 == params[i].name && combo[i].1 in params[i].values {
      var c := seq(|combo|, i requires 0 <= i < |combo| => combo[i].1);
      ProductMember(lists, c);
      var j :| 0 <= j < |perms| && perms[j] == c;
      assert labelled[j] == combo;
    }
  }

  /** The loop that pairs each value with its parameter's name. */
  method Label(params: seq<Param>, perm: seq<string>) returns (combo: Combo)
    requires |perm| == |params|
    ensures combo == Labelled(params, perm)
  {
    combo := [];
    for i := 0 to |perm|
      invariant combo == Labelled(params[..i], perm[..i])
    {
      combo := combo + [(params[i].name, perm[i])];
    }
    assert params[..|perm|] == params && perm[..|perm|] == perm;
  }

  /** The loop over the conditions, returning `false` at the first that fails. */
  method Check(conditions: seq<string>, combo: Combo, holds: (string, Combo) -> bool) returns (ok: bool)
    ensures ok == Passes(conditions, combo, holds)
  {
    for i := 0 to |conditions|
      invariant Passes(conditions[..i], combo, holds)
    {
      if !holds(conditions[i], combo) {
        return false;
      }
    }
    assert conditions[..|conditions|] == conditions;
    return true;
  }

  /** The `filter` of `permGenerator`: each choice labelled, kept when every condition
      holds. */
  method KeepPassing(params: seq<Param>, perms: seq<seq<string>>, conditions: seq<string>,
                     holds: (string, Combo) -> bool)
    returns (kept: seq<Combo>)
    requires forall j :: 0 <= j < |perms| ==> |perms[j]| == |params|
    ensures kept == JsText.Filter(seq(|perms|, j requires 0 <= j < |perms| => Labelled(params, perms[j])),
                                  combo => Passes(conditions, combo, holds))
  {
    ghost var labelled := seq(|perms|, j requires 0 <= j < |perms| => Labelled(params, perms[j]));
    ghost var keep := combo => Passes(conditions, combo, holds);
    kept := [];
    for j := 0 to |perms|
      invariant kept == JsText.Filter(labelled[..j], keep)
    {
      var combo := Label(params, perms[j]);
      var ok := Check(conditions, combo, holds);
      JsText.FilterPrefixStep(labelled, j, keep);
      if ok {
        kept := kept + [combo];
      }
    }
    assert labelled[..|perms|] == labelled;
  }

  /** `permGenerator(params, conditions)`. */
  method PermGenerator(params: seq<Param>, conditions: seq<string>, holds: (string, Combo) -> bool)
    returns (r: Result<seq<Combo>, Fault>)
    ensures r == Generated(params, conditions, holds)
  {
    if params == [] {
      return Err(NoParameters);
    }
    var perms := BuildProduct(ValueLists(params));
    forall j | 0 <= j < |perms|
      ensures |perms[j]| == |params|
    {
      ProductMember(ValueLists(params), perms[j]);
    }
    var kept := KeepPassing(params, perms, conditions, holds);
    r := Ok(kept);
  }

  // ---------------------------------------------------------------------------
  // Commands and option keys
  // ---------------------------------------------------------------------------

  /** One ` --name value` argument per parameter, in order. */
  function Arguments(combo: Combo): string
    decreases |combo|
  {
    if combo == [] then ""
    else Arguments(combo[..|combo| - 1]) + " --" + combo[|combo| - 1].0 + " " + combo[|combo| - 1].1
  }

  /** One `"name":"value"` pair per parameter, in order. */
  function Pairs(combo: Combo): (r: seq<string>)
    ensures |r| == |combo|
    ensures forall i :: 0 <= i < |r| ==> r[i] == "\"" + combo[i].0 + "\":\"" + combo[i].1 + "\""
  {
    seq(|combo|, i requires 0 <= i < |combo| => "\"" + combo[i].0 + "\":\"" + combo[i].1 + "\"")
  }

  /** `"{"` followed by every pair and a comma, as the loop leaves it. */
  function Accumulated(combo: Combo): string
    decreases |combo|
  {
    if combo == [] then "{"
    else Accumulated(combo[..|combo| - 1]) + Pairs(combo)[|combo| - 1] + ","
  }

  /** `replace(/\,$/g, '')`: a comma at the very end is dropped. */
  function DropFinalComma(s: string): (r: string)
    ensures s != [] && s[|s| - 1] == ',' ==> r + "," == s
    ensures (s == [] || s[|s| - 1] != ',') ==> r == s
  {
    if s != [] && s[|s| - 1] == ',' then s[..|s| - 1] else s
  }

  /** The loop's result: the JSON-like key under which a combination's runs are kept. */
  function OptionsKey(combo: Combo): string
  {
    DropFinalComma(Accumulated(combo)) + "}"
  }

  /** The loop before the comma is dropped: `{` and the pairs each followed by a comma. */
  lemma {:induction false} AccumulatedPairs(combo: Combo)
    ensures combo != [] ==> Accumulated(combo) == "{" + Text.Join(Pairs(combo), ",") + ","
    decreases |combo|
  {
    if |combo| > 1 {
      var init := combo[..|combo| - 1];
      AccumulatedPairs(init);
      assert Pairs(init) == Pairs(combo)[..|combo| - 1];
      assert Pairs(combo) == Pairs(init) + [Pairs(combo)[|combo| - 1]];
      Text.JoinSnoc(Pairs(init), Pairs(combo)[|combo| - 1], ",");
    } else if |combo| == 1 {
      assert combo[..0] == [];
    }
  }

  /** The key is the pairs joined by commas, in braces; `{}` without parameters. */
  lemma OptionsKeyShape(combo: Combo)
    ensures OptionsKey(combo) == "{" + Text.Join(Pairs(combo), ",") + "}"
  {
    AccumulatedPairs(combo);
  }

  /** One parameter more adds its argument and its pair. */
  lemma CommandStep(combo: Combo, i: nat)
    requires i < |combo|
    ensures Arguments(combo[..i + 1]) == Arguments(combo[..i]) + " --" + combo[i].0 + " " + combo[i].1
    ensures Accumulated(combo[..i + 1]) == Accumulated(combo[..i]) + "\"" + combo[i].0 + "\":\"" + combo[i].1 + "\","
  {
    assert combo[..i + 1][..i] == combo[..i];
    assert Pairs(combo[..i + 1])[i] == Pairs(combo)[i];
  }

  /** The loop that builds the command and the key of a combination. */
  method Command(programFile: string, instanceFile: string, combo: Combo) returns (cmd: string, key: string)
    ensures cmd == programFile + " --file " + instanceFile + " --skip-file-log" + Arguments(combo)
    ensures key == OptionsKey(combo)
  {
    cmd := programFile + " --file " + instanceFile + " --skip-file-log";
    var options := "{";
    for i := 0 to |combo|
      invariant cmd == programFile + " --file " + instanceFile + " --skip-file-log" + Arguments(combo[..i])
      invariant options == Accumulated(combo[..i])
    {
      CommandStep(combo, i);
      cmd := cmd + " --" + combo[i].0 + " " + combo[i].1;
      options := options + "\"" + combo[i].0 + "\":\"" + combo[i].1 + "\",";
    }
    assert combo[..|combo|] == combo;
    key := DropFinalComma(options) + "}";
  }

  // ---------------------------------------------------------------------------
  // Runs and their aggregation
  // ---------------------------------------------------------------------------

  /** A JavaScript number as far as the aggregation needs it: finite, or `NaN`. */
  datatype Num = Finite(x: real) | NaN

  /** What one run of the solver reported: `score`, `time`, `iters` and `sol`. */
  datatype Run = Run(score: Num, time: Num, iters: Option<int>, sol: Option<string>)

  /** How one run ended: `exec` reported an error, or the solver printed `stdout`. */
  datatype Outcome = Failed | Printed(stdout: string)

  /** The outside world the experiment talks to: the command lines, `exec` (the solver's
      outcome for a command on a given try), `parseFloat`, and the rendering of a number
      as text. */
  datatype Setup = Setup(programFile: string, instanceFile: string,
                         exec: (string, nat) -> Outcome, parseFloat: string -> Num, show: Num -> string)

  /** What a combination's aggregated runs give: the averages and the best run. */
  datatype Summary = Summary(avgScore: Num, avgTime: Num, best: Run)

  /** The runs each combination gets. */
  const Tries: nat := 10

  /** The number of combinations run at the same time. */
  const MaxThreads: nat := 20

  /** Element `k` of the destructured `split`, `undefined` past the end. */
  function Field(parts: seq<string>, k: nat): (r: Option<string>)
    ensures r.Some? <==> k < |parts|
    ensures k < |parts| ==> r.value == parts[k]
  {
    if k < |parts| then Some(parts[k]) else None
  }

  /** `parseFloat` of a field; `parseFloat(undefined)` is `NaN`. */
  function FloatOf(f: Option<string>, parseFloat: string -> Num): Num
  {
    if f.Some? then parseFloat(f.value) else NaN
  }

  /** The run a solver's output reports, read from its last non-empty line. Output without
      such a line fails: the program calls `split` on `undefined`. */
  function ParseRun(stdout: string, parseFloat: string -> Num): (r: Result<Run, Fault>)
    ensures r.Err? ==> r.error == NoOutput
  {
    var res := JsText.Filter(Text.Split(stdout, '\n'), JsText.Truthy);
    if res == [] then Err(NoOutput) else Ok(ReadLine(res[|res| - 1], parseFloat))
  }

  /** The destructured `split(';')` of the last line: `score` and `time` through
      `parseFloat`, `iters` through `parseInt`, and `sol` as it is. */
  function ReadLine(line: string, parseFloat: string -> Num): Run
  {
    var parts := Text.Split(line, ';');
    Run(FloatOf(Field(parts, 0), parseFloat), FloatOf(Field(parts, 1), parseFloat),
        if |parts| > 2 then JsText.ParseInt(parts[2]) else None, Field(parts, 3))
  }

  /** Four fields joined by `;` are read back one by one. */
  lemma ReadLineFields(fields: seq<string>, parseFloat: string -> Num)
    requires |fields| == 4
    requires forall k :: 0 <= k < 4 ==> ';' !in fields[k]
    ensures ReadLine(Text.Join(fields, ";"), parseFloat) ==
      Run(parseFloat(fields[0]), parseFloat(fields[1]), JsText.ParseInt(fields[2]), Some(fields[3]))
  {
    Text.SplitJoin(fields, ';');
  }

  /** Whatever the solver printed before, a last line `score;time;iters;sol` is read back
      field by field. */
  lemma ParseRunLastLine(before: string, fields: seq<string>, parseFloat: string -> Num)
    requires |fields| == 4 && Text.Join(fields, ";") != ""
    requires forall k :: 0 <= k < 4 ==> ';' !in fields[k] && '\n' !in fields[k]
    ensures ParseRun(before + "\n" + Text.Join(fields, ";") + "\n", parseFloat) ==
      Ok(Run(parseFloat(fields[0]), parseFloat(fields[1]), JsText.ParseInt(fields[2]), Some(fields[3])))
  {
    var line := Text.Join(fields, ";");
    Text.JoinAvoids(fields, ";", '\n');
    LastLine(before, line);
    assert ParseRun(before + "\n" + line + "\n", parseFloat) == Ok(ReadLine(line, parseFloat));
    ReadLineFields(fields, parseFloat);
  }

  /** The last non-empty line of `before`, a line break, `line` and a line break is `line`. */
  lemma LastLine(before: string, line: string)
    requires line != "" && '\n' !in line
    ensures var res := JsText.Filter(Text.Split(before + "\n" + line + "\n", '\n'), JsText.Truthy);
      res != [] && res[|res| - 1] == line
  {
    Text.SplitNoSeparator(line, '\n');
    Text.SplitConcat(line, '\n', "");
    assert line + "\n" == line + ['\n'] + "";
    Text.SplitConcat(before, '\n', line + "\n");
    assert before + "\n" + line + "\n" == before + ['\n'] + (line + "\n");
    JsText.FilterConcat(Text.Split(before, '\n'), [line, ""], JsText.Truthy);
    assert Text.Split(line + "\n", '\n') == [line, ""];
    assert JsText.Filter([line, ""], JsText.Truthy) == [line];
  }

  /** Output made of line breaks alone reports nothing. */
  lemma ParseRunBlank(stdout: string, parseFloat: string -> Num)
    requires forall k :: 0 <= k < |stdout| ==> stdout[k] == '\n'
    ensures ParseRun(stdout, parseFloat) == Err(NoOutput)
  {
    BlankPieces(stdout);
    JsText.FilterMeaning(Text.Split(stdout, '\n'), JsText.Truthy);
    if JsText.Filter(Text.Split(stdout, '\n'), JsText.Truthy) != [] {
      assert JsText.Filter(Text.Split(stdout, '\n'), JsText.Truthy)[0] in Text.Split(stdout, '\n');
    }
  }

  /** Splitting line breaks alone gives empty pieces only. */
  lemma {:induction false} BlankPieces(s: string)
    requires forall k :: 0 <= k < |s| ==> s[k] == '\n'
    ensures forall k :: 0 <= k < |Text.Split(s, '\n')| ==> Text.Split(s, '\n')[k] == ""
  {
    if s != [] {
      BlankPieces(s[1..]);
      Text.SplitConsSep(s, '\n');
    }
  }

  /** `a + b`: `NaN` as soon as either is. */
  function Add(a: Num, b: Num): Num
  {
    if a.Finite? && b.Finite? then Finite(a.x + b.x) else NaN
  }

  /** `a > b`: false as soon as either is `NaN`. */
  predicate Greater(a: Num, b: Num)
  {
    a.Finite? && b.Finite? && a.x > b.x
  }

  /** `best` as the loop leaves it: the first run, replaced by each later run whose score is
      greater than the best so far. */
  function Best(elems: seq<Run>): (r: Run)
    requires elems != []
    ensures r in elems
    decreases |elems|
  {
    if |elems| == 1 then elems[0]
    else
      var best := Best(elems[..|elems| - 1]);
      if Greater(elems[|elems| - 1].score, best.score) then elems[|elems| - 1] else best
  }

  /** The running sum of one field, starting from the first run's. */
  function Total(elems: seq<Run>, field: Run -> Num): Num
    requires elems != []
    decreases |elems|
  {
    if |elems| == 1 then field(elems[0]) else Add(Total(elems[..|elems| - 1], field), field(elems[|elems| - 1]))
  }

  /** A sum divided by the number of runs. */
  function Average(total: Num, n: nat): Num
    requires n > 0
  {
    if total.Finite? then Finite(total.x / n as real) else NaN
  }

  /** The score of a run. */
  function ScoreOf(run: Run): Num { run.score }

  /** The time of a run. */
  function TimeOf(run: Run): Num { run.time }

  /** What the aggregation makes of a combination's runs; without any run it fails on
      `elems[0].score`. */
  function Summarized(elems: seq<Run>): (r: Result<Summary, Fault>)
    ensures r.Err? <==> elems == []
    ensures r.Err? ==> r.error == NoRuns
    ensures r.Ok? ==> r.value.best in elems
  {
    if elems == [] then Err(NoRuns)
    else Ok(Summary(Average(Total(elems, ScoreOf), |elems|), Average(Total(elems, TimeOf), |elems|), Best(elems)))
  }

  /** The aggregation loop of one combination. */
  method Aggregate(elems: seq<Run>) returns (r: Result<Summary, Fault>)
    ensures r == Summarized(elems)
  {
    if elems == [] {
      return Err(NoRuns);
    }
    var avgScore := elems[0].score;
    var avgTime := elems[0].time;
    var best := elems[0];
    assert elems[..1] == [elems[0]];
    for index := 1 to |elems|
      invariant best == Best(elems[..index])
      invariant avgScore == Total(elems[..index], ScoreOf)
      invariant avgTime == Total(elems[..index], TimeOf)
    {
      var elem := elems[index];
      assert elems[..index + 1][..index] == elems[..index];
      if Greater(elem.score, best.score) {
        best := elem;
      }
      avgScore := Add(avgScore, elem.score);
      avgTime := Add(avgTime, elem.time);
    }
    assert elems[..|elems|] == elems;
    r := Ok(Summary(Average(avgScore, |elems|), Average(avgTime, |elems|), best));
  }

  /** Every score is a number. */
  predicate AllScored(elems: seq<Run>)
  {
    forall k :: 0 <= k < |elems| ==> elems[k].score.Finite?
  }

  /** The best run is one of the runs; when every score is a number it has the greatest
      score, and every run before it scores strictly less. */
  lemma {:induction false} BestIsFirstMaximal(elems: seq<Run>)
    requires elems != []
    ensures Best(elems) in elems
    ensures AllScored(elems) ==> forall k :: 0 <= k < |elems| ==> elems[k].score.x <= Best(elems).score.x
    ensures AllScored(elems) ==>
      (exists j :: 0 <= j < |elems| && elems[j] == Best(elems) &&
        forall k :: 0 <= k < j ==> elems[k].score.x < Best(elems).score.x)
    decreases |elems|
  {
    if |elems| > 1 {
      var init := elems[..|elems| - 1];
      BestIsFirstMaximal(init);
      if AllScored(elems) {
        assert AllScored(init) by {
          forall k | 0 <= k < |init| ensures init[k].score.Finite? { assert init[k] == elems[k]; }
        }
        var b := Best(init);
        var j :| 0 <= j < |init| && init[j] == b && forall k :: 0 <= k < j ==> init[k].score.x < b.score.x;
        if Greater(elems[|elems| - 1].score, b.score) {
          assert forall k :: 0 <= k < |init| ==> elems[k] == init[k];
        } else {
          assert elems[j] == b;
          assert forall k :: 0 <= k < |init| ==> elems[k] == init[k];
        }
      }
    }
  }

  /** A first run without a score is never replaced: `NaN` compares false both ways. */
  lemma {:induction false} BestStaysWhenFirstIsNaN(elems: seq<Run>)
    requires elems != [] && elems[0].score.NaN?
    ensures Best(elems) == elems[0]
    decreases |elems|
  {
    if |elems| > 1 {
      BestStaysWhenFirstIsNaN(elems[..|elems| - 1]);
    }
  }

  /** When every score is a number, so is the sum, and it is at most `|elems|` times a bound
      on the scores. */
  lemma {:induction false} TotalBound(elems: seq<Run>, bound: real)
    requires elems != [] && AllScored(elems)
    requires forall k :: 0 <= k < |elems| ==> elems[k].score.x <= bound
    ensures Total(elems, ScoreOf).Finite?
    ensures Total(elems, ScoreOf).x <= |elems| as real * bound
    decreases |elems|
  {
    if |elems| > 1 {
      var init := elems[..|elems| - 1];
      assert forall k :: 0 <= k < |init| ==> init[k] == elems[k];
      TotalBound(init, bound);
      assert |elems| as real * bound == |init| as real * bound + bound;
    }
  }

  /** When every score is a number, the average score is a number no greater than the
      best run's score. */
  lemma AverageAtMostBest(elems: seq<Run>)
    requires elems != [] && AllScored(elems)
    ensures Summarized(elems).value.avgScore.Finite? && Summarized(elems).value.best.score.Finite?
    ensures Summarized(elems).value.avgScore.x <= Summarized(elems).value.best.score.x
  {
    BestIsFirstMaximal(elems);
    var m := Best(elems).score.x;
    TotalBound(elems, m);
    AverageBound(Total(elems, ScoreOf).x, |elems| as real, m);
  }

  /** A total of `n` terms, none above `m`, averages at most `m`. */
  lemma AverageBound(t: real, n: real, m: real)
    requires n > 0.0 && t <= n * m
    ensures t / n <= m
  {
    assert t / n <= (n * m) / n;
  }

  // ---------------------------------------------------------------------------
  // The log
  // ---------------------------------------------------------------------------

  /** An integer field as a template literal renders it; `parseInt` failures are `NaN`. */
  function ShowInt(n: Option<int>): string
  {
    if n.Some? then Text.IntToString(n.value) else "NaN"
  }

  /** A text field as a template literal renders it; a missing one is `undefined`. */
  function ShowText(t: Option<string>): string
  {
    if t.Some? then t.value else "undefined"
  }

  /** The seven fields of a combination's log line. */
  function LogFields(key: string, s: Summary, show: Num -> string): (r: seq<string>)
    ensures |r| == 7 && r[0] == key
  {
    [key, show(s.avgScore), show(s.avgTime), show(s.best.score), show(s.best.time),
     ShowInt(s.best.iters), ShowText(s.best.sol)]
  }

  /** `${key};${avgScore};${avgTime};${best.score};${best.time};${best.iters};${best.sol}\n`. */
  function LogLine(key: string, s: Summary, show: Num -> string): string
  {
    Text.Join(LogFields(key, s, show), ";") + "\n"
  }

  /** A log line splits back into its seven fields as long as the key, the solution and the
      rendered numbers hold no `;`. */
  lemma LogLineFields(key: string, s: Summary, show: Num -> string)
    requires ';' !in key && ';' !in ShowText(s.best.sol)
    requires forall n :: ';' !in show(n)
    ensures var line := LogLine(key, s, show);
      Text.Split(line[..|line| - 1], ';') == LogFields(key, s, show)
  {
    Text.IntToStringShape(if s.best.iters.Some? then s.best.iters.value else 0);
    var fields := LogFields(key, s, show);
    assert ';' !in ShowInt(s.best.iters) by {
      if s.best.iters.Some? {
        var t := Text.IntToString(s.best.iters.value);
        forall k | 0 <= k < |t| ensures t[k] != ';' {
          if k > 0 { assert Text.IsDigit(t[k]); }
        }
      }
    }
    Text.SplitJoin(fields, ';');
    var line := LogLine(key, s, show);
    assert line[..|line| - 1] == Text.Join(fields, ";");
  }

  /** `Permutation ${i} reached\n`. */
  function ProgressLine(i: nat): string
  {
    "Permutation " + Text.NatToString(i) + " reached\n"
  }

  /** Where the batch starting at `i` ends. */
  function BatchEnd(i: nat, n: nat): (end: nat)
    requires i < n
    ensures i < end <= n && end - i <= MaxThreads
    ensures end < n ==> end - i == MaxThreads
  {
    if i + MaxThreads >= n then n else i + MaxThreads
  }

  /** The number of batches from `i` on. */
  function Batches(i: nat, n: nat): nat
    decreases n - i
  {
    if i >= n then 0 else 1 + Batches(BatchEnd(i, n), n)
  }

  /** The combinations from `i` on are run in `n - i` divided by twenty, rounded up,
      batches. */
  lemma {:induction false} BatchesCount(i: nat, n: nat)
    ensures Batches(i, n) == if i >= n then 0 else (n - i + MaxThreads - 1) / MaxThreads
    decreases n - i
  {
    if i < n {
      BatchesCount(BatchEnd(i, n), n);
    }
  }

  /** `xs` mapped through `f` in order; the first `Err` ends it, `None` elements are left
      out. */
  function Collect<A, B>(xs: seq<A>, f: A -> Result<Option<B>, Fault>): Result<seq<B>, Fault>
    decreases |xs|
  {
    if xs == [] then Ok([])
    else
      match Collect(xs[..|xs| - 1], f)
      case Err(e) => Err(e)
      case Ok(done) =>
        match f(xs[|xs| - 1])
        case Err(e) => Err(e)
        case Ok(None) => Ok(done)
        case Ok(Some(b)) => Ok(done + [b])
  }

  /** The first failure decides the outcome. */
  lemma {:induction false} CollectStops<A, B>(xs: seq<A>, n: nat, f: A -> Result<Option<B>, Fault>)
    requires n <= |xs| && Collect(xs[..n], f).Err?
    ensures Collect(xs, f) == Collect(xs[..n], f)
    decreases |xs| - n
  {
    if n < |xs| {
      assert xs[..n + 1][..n] == xs[..n];
      CollectStops(xs, n + 1, f);
    } else {
      assert xs[..n] == xs;
    }
  }

  /** A run's outcome read: a failed `exec` is left out, printed output is parsed. */
  function ReadOutcome(parseFloat: string -> Num): Outcome -> Result<Option<Run>, Fault>
  {
    (o: Outcome) => if o.Failed? then Ok(None)
         else match ParseRun(o.stdout, parseFloat)
              case Err(e) => Err(e)
              case Ok(run) => Ok(Some(run))
  }

  /** The ten outcomes of a command. */
  function Outcomes(setup: Setup, cmd: string): (r: seq<Outcome>)
    ensures |r| == Tries && forall t :: 0 <= t < Tries ==> r[t] == setup.exec(cmd, t)
  {
    seq(Tries, t requires 0 <= t < Tries => setup.exec(cmd, t))
  }

  /** The key and the runs of combination `combo`. */
  function Entry(setup: Setup): Combo -> Result<Option<(string, seq<Run>)>, Fault>
  {
    (combo: Combo) =>
      var cmd := CommandLine(setup, combo);
      match Collect(Outcomes(setup, cmd), ReadOutcome(setup.parseFloat))
      case Err(e) => Err(e)
      case Ok(runs) => Ok(Some((OptionsKey(combo), runs)))
  }

  /** The command line of a combination. */
  function CommandLine(setup: Setup, combo: Combo): string
  {
    setup.programFile + " --file " + setup.instanceFile + " --skip-file-log" + Arguments(combo)
  }

  // ---------------------------------------------------------------------------
  // execResults: the runs of a batch under their option keys
  // ---------------------------------------------------------------------------

  /** Where `key` sits among the keys of `groups`, or -1. */
  function KeyIndex(groups: seq<(string, seq<Run>)>, key: string): (j: int)
    ensures -1 <= j < |groups|
    ensures j >= 0 ==> groups[j].0 == key
    ensures j < 0 ==> forall k :: 0 <= k < |groups| ==> groups[k].0 != key
    decreases |groups|
  {
    if groups == [] then -1
    else if groups[0].0 == key then 0
    else
      var j := KeyIndex(groups[1..], key);
      if j < 0 then -1 else j + 1
  }

  /** `execResults[key] = []` and the pushes of the key's runs: a key met again in the
      batch keeps its place and gathers these runs after the earlier ones, a new key goes
      last. */
  function AddRuns(groups: seq<(string, seq<Run>)>, key: string, runs: seq<Run>): seq<(string, seq<Run>)>
  {
    var j := KeyIndex(groups, key);
    if j < 0 then groups + [(key, runs)] else groups[j := (key, groups[j].1 + runs)]
  }

  /** `execResults` once every combination of the batch has run. */
  function Grouped(entries: seq<(string, seq<Run>)>): seq<(string, seq<Run>)>
    decreases |entries|
  {
    if entries == [] then []
    else AddRuns(Grouped(entries[..|entries| - 1]), entries[|entries| - 1].0, entries[|entries| - 1].1)
  }

  /** The keys of the entries, in order. */
  function KeysOf(entries: seq<(string, seq<Run>)>): (keys: seq<string>)
    ensures |keys| == |entries| && forall k :: 0 <= k < |entries| ==> keys[k] == entries[k].0
  {
    seq(|entries|, k requires 0 <= k < |entries| => entries[k].0)
  }

  /** The distinct texts of `xs` in the order they first occur. */
  function FirstOccurrences(xs: seq<string>): seq<string>
    decreases |xs|
  {
    if xs == [] then []
    else
      var init := FirstOccurrences(xs[..|xs| - 1]);
      if xs[|xs| - 1] in init then init else init + [xs[|xs| - 1]]
  }

  /** The runs of every entry with key `key`, in entry order. */
  function RunsOf(entries: seq<(string, seq<Run>)>, key: string): seq<Run>
    decreases |entries|
  {
    if entries == [] then []
    else RunsOf(entries[..|entries| - 1], key) + (if entries[|entries| - 1].0 == key then entries[|entries| - 1].1 else [])
  }

  /** The first occurrences are distinct, hold exactly the texts of `xs`, and are no more
      than `xs`; a text without repeats is its own first occurrences. */
  lemma {:induction false} FirstOccurrencesMeaning(xs: seq<string>)
    ensures Distinct(FirstOccurrences(xs))
    ensures forall x :: x in FirstOccurrences(xs) <==> x in xs
    ensures |FirstOccurrences(xs)| <= |xs|
    ensures Distinct(xs) ==> FirstOccurrences(xs) == xs
    decreases |xs|
  {
    if xs != [] {
      var init := xs[..|xs| - 1];
      FirstOccurrencesMeaning(init);
      assert xs == init + [xs[|xs| - 1]];
      if Distinct(xs) {
        assert Distinct(init);
        assert xs[|xs| - 1] !in init;
      }
    }
  }

  /** A key no entry has gathers no runs. */
  lemma {:induction false} RunsOfAbsent(entries: seq<(string, seq<Run>)>, key: string)
    requires key !in KeysOf(entries)
    ensures RunsOf(entries, key) == []
    decreases |entries|
  {
    if entries != [] {
      var init := entries[..|entries| - 1];
      assert KeysOf(init) == KeysOf(entries)[..|entries| - 1];
      RunsOfAbsent(init, key);
    }
  }

  /** `groups` pairs each of `keys`, in order, with the runs of every entry that has that
      key, in entry order. */
  ghost predicate GroupsMatch(groups: seq<(string, seq<Run>)>, keys: seq<string>, entries: seq<(string, seq<Run>)>)
  {
    |groups| == |keys| && forall j :: 0 <= j < |groups| ==> groups[j] == (keys[j], RunsOf(entries, keys[j]))
  }

  /** `groups` holds one entry per distinct key of `entries`, in the order the keys first
      occur, each with the runs of every entry that has that key, in entry order. */
  ghost predicate GroupsOf(groups: seq<(string, seq<Run>)>, entries: seq<(string, seq<Run>)>)
  {
    GroupsMatch(groups, FirstOccurrences(KeysOf(entries)), entries)
  }

  /** `execResults` holds one entry per distinct key, in the order the keys first occur,
      each with the runs of every combination that has that key, in combination order. */
  lemma {:induction false} GroupedMeaning(entries: seq<(string, seq<Run>)>)
    ensures GroupsOf(Grouped(entries), entries)
    decreases |entries|
  {
    if entries != [] {
      var init := entries[..|entries| - 1];
      var key, runs := entries[|entries| - 1].0, entries[|entries| - 1].1;
      GroupedMeaning(init);
      assert entries == init + [(key, runs)];
      if KeyIndex(Grouped(init), key) < 0 {
        GroupedNewKey(init, key, runs);
      } else {
        GroupedKnownKey(init, key, runs);
      }
    }
  }

  /** The keys of entries and one more entry. */
  lemma KeysOfSnoc(init: seq<(string, seq<Run>)>, key: string, runs: seq<Run>)
    ensures KeysOf(init + [(key, runs)]) == KeysOf(init) + [key]
  {
  }

  /** The groups of entries and one more entry. */
  lemma GroupedSnoc(init: seq<(string, seq<Run>)>, key: string, runs: seq<Run>)
    ensures Grouped(init + [(key, runs)]) == AddRuns(Grouped(init), key, runs)
  {
    assert (init + [(key, runs)])[..|init|] == init;
  }

  /** The first occurrences of a text and one more. */
  lemma FirstOccurrencesSnoc(xs: seq<string>, x: string)
    ensures FirstOccurrences(xs + [x]) == if x in FirstOccurrences(xs) then FirstOccurrences(xs) else FirstOccurrences(xs) + [x]
  {
    assert (xs + [x])[..|xs|] == xs;
  }

  /** The runs of `x` among entries and one more entry. */
  lemma RunsOfLast(init: seq<(string, seq<Run>)>, key: string, runs: seq<Run>, x: string)
    ensures key == x ==> RunsOf(init + [(key, runs)], x) == RunsOf(init, x) + runs
    ensures key != x ==> RunsOf(init + [(key, runs)], x) == RunsOf(init, x)
  {
    assert (init + [(key, runs)])[..|init|] == init;
    assert RunsOf(init, x) + [] == RunsOf(init, x);
  }

  /** A key not met before gets a new group, last. */
  lemma GroupedNewKey(init: seq<(string, seq<Run>)>, key: string, runs: seq<Run>)
    requires GroupsOf(Grouped(init), init)
    requires KeyIndex(Grouped(init), key) < 0
    ensures GroupsOf(Grouped(init + [(key, runs)]), init + [(key, runs)])
  {
    var g := Grouped(init);
    var f := FirstOccurrences(KeysOf(init));
    assert key !in f by {
      forall i | 0 <= i < |f| ensures f[i] != key { assert g[i].0 == f[i]; }
    }
    FirstOccurrencesMeaning(KeysOf(init));
    RunsOfAbsent(init, key);
    GroupedSnoc(init, key, runs);
    KeysOfSnoc(init, key, runs);
    FirstOccurrencesSnoc(KeysOf(init), key);
    GroupsAppend(g, f, init, key, runs);
  }

  /** Groups of the entries so far, and a new group for a key none of them has. */
  lemma GroupsAppend(g: seq<(string, seq<Run>)>, f: seq<string>, init: seq<(string, seq<Run>)>, key: string, runs: seq<Run>)
    requires GroupsMatch(g, f, init) && key !in f && RunsOf(init, key) == []
    ensures GroupsMatch(g + [(key, runs)], f + [key], init + [(key, runs)])
  {
    var entries := init + [(key, runs)];
    var g2, f2 := g + [(key, runs)], f + [key];
    forall i | 0 <= i < |g2|
      ensures g2[i] == (f2[i], RunsOf(entries, f2[i]))
    {
      RunsOfLast(init, key, runs, f2[i]);
      if i < |g| {
        assert g2[i] == g[i] == (f[i], RunsOf(init, f[i]));
        assert f2[i] == f[i] != key;
      } else {
        assert g2[i] == (key, runs) && f2[i] == key;
        assert [] + runs == runs;
      }
    }
  }

  /** A key met before keeps its group and place, and gathers the new runs after its
      earlier ones. */
  lemma GroupedKnownKey(init: seq<(string, seq<Run>)>, key: string, runs: seq<Run>)
    requires GroupsOf(Grouped(init), init)
    requires KeyIndex(Grouped(init), key) >= 0
    ensures GroupsOf(Grouped(init + [(key, runs)]), init + [(key, runs)])
  {
    var g := Grouped(init);
    var f := FirstOccurrences(KeysOf(init));
    var j := KeyIndex(g, key);
    assert f[j] == key;
    GroupedSnoc(init, key, runs);
    KeysOfSnoc(init, key, runs);
    FirstOccurrencesSnoc(KeysOf(init), key);
    FirstOccurrencesMeaning(KeysOf(init));
    GroupsExtend(g, f, init, j, runs);
  }

  /** Groups of the entries so far, with new runs for the key of group `j`. */
  lemma GroupsExtend(g: seq<(string, seq<Run>)>, f: seq<string>, init: seq<(string, seq<Run>)>, j: nat, runs: seq<Run>)
    requires GroupsMatch(g, f, init) && Distinct(f) && j < |f|
    ensures GroupsMatch(g[j := (f[j], g[j].1 + runs)], f, init + [(f[j], runs)])
  {
    var entries := init + [(f[j], runs)];
    var h := g[j := (f[j], g[j].1 + runs)];
    forall i | 0 <= i < |h|
      ensures h[i] == (f[i], RunsOf(entries, f[i]))
    {
      RunsOfLast(init, f[j], runs, f[i]);
      assert g[i] == (f[i], RunsOf(init, f[i]));
      if i != j {
        assert f[i] != f[j];
        assert h[i] == g[i];
      } else {
        assert h[i] == (f[j], g[j].1 + runs);
      }
    }
  }

  /** The key and the runs of each combination, in order; every combination of the batch
      has one. */
  lemma EntriesMeaning(setup: Setup, batch: seq<Combo>)
    requires Collect(batch, Entry(setup)).Ok?
    ensures |Collect(batch, Entry(setup)).value| == |batch|
    ensures forall k :: 0 <= k < |batch| ==> Collect(batch, Entry(setup)).value[k].0 == OptionsKey(batch[k])
  {
    forall k | 0 <= k < |batch|
      ensures Entry(setup)(batch[k]).Err? || Entry(setup)(batch[k]).value.Some?
    {
    }
    CollectLength(batch, Entry(setup));
  }

  /** The option keys of the combinations, in order. */
  function BatchKeys(batch: seq<Combo>): (keys: seq<string>)
    ensures |keys| == |batch| && forall k :: 0 <= k < |batch| ==> keys[k] == OptionsKey(batch[k])
  {
    seq(|batch|, k requires 0 <= k < |batch| => OptionsKey(batch[k]))
  }

  // ---------------------------------------------------------------------------
  // Batches and the log
  // ---------------------------------------------------------------------------

  /** The log lines of `groups` in order, up to the first key whose runs cannot be
      aggregated (none of them succeeded); the lines already written stay written. */
  function SummarizeAll(groups: seq<(string, seq<Run>)>, show: Num -> string): (seq<string>, Option<Fault>)
    decreases |groups|
  {
    if groups == [] then ([], None)
    else
      var init := SummarizeAll(groups[..|groups| - 1], show);
      if init.1.Some? then init
      else
        match Summarized(groups[|groups| - 1].1)
        case Err(e) => (init.0, Some(e))
        case Ok(summary) => (init.0 + [LogLine(groups[|groups| - 1].0, summary, show)], None)
  }

  /** Line `k` is the line of key `k`; without a failure there is one line per key, and a
      failure is that of the key right after the last line written. */
  lemma {:induction false} SummarizeAllMeaning(groups: seq<(string, seq<Run>)>, show: Num -> string)
    ensures var (lines, failure) := SummarizeAll(groups, show);
      |lines| <= |groups|
      && (forall k :: 0 <= k < |lines| ==>
            Summarized(groups[k].1).Ok? && lines[k] == LogLine(groups[k].0, Summarized(groups[k].1).value, show))
      && (failure.None? <==> forall k :: 0 <= k < |groups| ==> Summarized(groups[k].1).Ok?)
      && (failure.None? ==> |lines| == |groups|)
      && (failure.Some? ==> |lines| < |groups| && Summarized(groups[|lines|].1) == Err(failure.value))
    decreases |groups|
  {
    if groups != [] {
      var init := groups[..|groups| - 1];
      SummarizeAllMeaning(init, show);
      assert forall k :: 0 <= k < |init| ==> init[k] == groups[k];
    }
  }

  /** The log lines of one batch and the failure that stopped it: every combination run
      ten times first, the runs gathered under their option keys, then one line per key. */
  function BatchLog(setup: Setup, batch: seq<Combo>): (seq<string>, Option<Fault>)
  {
    match Collect(batch, Entry(setup))
    case Err(e) => ([], Some(e))
    case Ok(entries) => SummarizeAll(Grouped(entries), setup.show)
  }

  /** The log written from combination `i` on, and the failure that stopped it, if any. A
      batch whose output cannot be read writes nothing; one that fails in the aggregation
      has written the lines of the keys before. */
  function ExperimentLog(setup: Setup, perms: seq<Combo>, i: nat): (seq<string>, Option<Fault>)
    decreases |perms| - i
  {
    if i >= |perms| then ([], None)
    else
      var end := BatchEnd(i, |perms|);
      var batch := BatchLog(setup, perms[i..end]);
      if batch.1.Some? then batch
      else
        var rest := ExperimentLog(setup, perms, end);
        (batch.0 + [ProgressLine(end)] + rest.0, rest.1)
  }

  /** Where no element is left out, a successful collection has one result per element,
      each the one its element gives. */
  lemma {:induction false} CollectLength<A, B>(xs: seq<A>, f: A -> Result<Option<B>, Fault>)
    requires Collect(xs, f).Ok?
    requires forall k :: 0 <= k < |xs| ==> f(xs[k]).Err? || f(xs[k]).value.Some?
    ensures |Collect(xs, f).value| == |xs|
    ensures forall k :: 0 <= k < |xs| ==> f(xs[k]) == Ok(Some(Collect(xs, f).value[k]))
    decreases |xs|
  {
    if xs != [] {
      var init := xs[..|xs| - 1];
      assert forall k :: 0 <= k < |init| ==> init[k] == xs[k];
      CollectLength(init, f);
    }
  }

  /** A batch that succeeds writes one line per distinct option key, in the order the
      keys first occur, each aggregating the runs of every combination with that key; so
      it writes one line per combination exactly when no two combinations share a key. */
  lemma BatchLogLength(setup: Setup, batch: seq<Combo>)
    ensures BatchLog(setup, batch).1.None? ==>
      |BatchLog(setup, batch).0| == |FirstOccurrences(BatchKeys(batch))| <= |batch|
    ensures BatchLog(setup, batch).1.None? ==> (|BatchLog(setup, batch).0| == |batch| <==> Distinct(BatchKeys(batch)))
    ensures BatchLog(setup, batch).1.None? ==>
      var entries := Collect(batch, Entry(setup)).value;
      forall j :: 0 <= j < |BatchLog(setup, batch).0| ==>
        var key := FirstOccurrences(BatchKeys(batch))[j];
        Summarized(RunsOf(entries, key)).Ok?
        && BatchLog(setup, batch).0[j] == LogLine(key, Summarized(RunsOf(entries, key)).value, setup.show)
  {
    if BatchLog(setup, batch).1.None? {
      var entries := Collect(batch, Entry(setup)).value;
      EntriesMeaning(setup, batch);
      assert KeysOf(entries) == BatchKeys(batch);
      GroupedMeaning(entries);
      SummarizeAllMeaning(Grouped(entries), setup.show);
      FirstOccurrencesMeaning(BatchKeys(batch));
      if |FirstOccurrences(BatchKeys(batch))| == |batch| {
        FirstOccurrencesDistinct(BatchKeys(batch));
      }
    }
  }

  /** Texts with as many first occurrences as entries have no repeats. */
  lemma {:induction false} FirstOccurrencesDistinct(xs: seq<string>)
    requires |FirstOccurrences(xs)| == |xs|
    ensures Distinct(xs)
    decreases |xs|
  {
    if xs != [] {
      var init := xs[..|xs| - 1];
      FirstOccurrencesMeaning(init);
      FirstOccurrencesDistinct(init);
      assert xs[|xs| - 1] !in init;
      assert xs == init + [xs[|xs| - 1]];
    }
  }

  /** No two combinations share an option key. */
  predicate KeysDistinct(perms: seq<Combo>)
  {
    forall p, q :: 0 <= p < q < |perms| ==> OptionsKey(perms[p]) != OptionsKey(perms[q])
  }

  /** An experiment that runs to the end writes at most one line per combination and one
      progress line per batch, the last reporting that every combination was reached;
      when no two combinations share an option key it writes exactly one line per
      combination. */
  lemma ExperimentLogComplete(setup: Setup, perms: seq<Combo>, i: nat)
    requires i < |perms| && ExperimentLog(setup, perms, i).1 == None
    ensures |ExperimentLog(setup, perms, i).0| <= (|perms| - i) + Batches(i, |perms|)
    ensures KeysDistinct(perms) ==> |ExperimentLog(setup, perms, i).0| == (|perms| - i) + Batches(i, |perms|)
    ensures ExperimentLog(setup, perms, i).0[|ExperimentLog(setup, perms, i).0| - 1] == ProgressLine(|perms|)
  {
    ExperimentLogLength(setup, perms, i);
    ExperimentLogLast(setup, perms, i);
  }

  /** The log has at most one line per combination plus one progress line per batch, and
      exactly that many when the options keys are distinct. */
  lemma {:induction false} ExperimentLogLength(setup: Setup, perms: seq<Combo>, i: nat)
    requires i <= |perms| && ExperimentLog(setup, perms, i).1 == None
    ensures |ExperimentLog(setup, perms, i).0| <= (|perms| - i) + Batches(i, |perms|)
    ensures KeysDistinct(perms) ==> |ExperimentLog(setup, perms, i).0| == (|perms| - i) + Batches(i, |perms|)
    decreases |perms| - i
  {
    if i < |perms| {
      var end := BatchEnd(i, |perms|);
      BatchLogCount(setup, perms[i..end]);
      if KeysDistinct(perms) {
        SliceKeysDistinct(perms, i, end);
      }
      ExperimentLogLength(setup, perms, end);
    }
  }

  /** A completed run of batches ends with the final progress line. */
  lemma {:induction false} ExperimentLogLast(setup: Setup, perms: seq<Combo>, i: nat)
    requires i < |perms| && ExperimentLog(setup, perms, i).1 == None
    ensures ExperimentLog(setup, perms, i).0[|ExperimentLog(setup, perms, i).0| - 1] == ProgressLine(|perms|)
    decreases |perms| - i
  {
    var end := BatchEnd(i, |perms|);
    if end < |perms| {
      ExperimentLogLast(setup, perms, end);
    }
  }

  /** The line count of a completed batch: one per distinct key, so one per combination
      exactly when the keys are distinct. */
  lemma BatchLogCount(setup: Setup, batch: seq<Combo>)
    ensures BatchLog(setup, batch).1.None? ==> |BatchLog(setup, batch).0| <= |batch|
    ensures BatchLog(setup, batch).1.None? ==> (|BatchLog(setup, batch).0| == |batch| <==> Distinct(BatchKeys(batch)))
  {
    BatchLogLength(setup, batch);
  }

  /** A run of combinations cut from ones whose keys are distinct has distinct keys. */
  lemma SliceKeysDistinct(perms: seq<Combo>, i: nat, end: nat)
    requires i <= end <= |perms| && KeysDistinct(perms)
    ensures Distinct(BatchKeys(perms[i..end]))
  {
    var batch := perms[i..end];
    forall p, q | 0 <= p < q < |batch| ensures BatchKeys(batch)[p] != BatchKeys(batch)[q] {
      assert batch[p] == perms[i + p] && batch[q] == perms[i + q];
    }
  }

  /** The ten tries of one command; a failed `exec` is skipped, unreadable output stops. */
  method RunTries(setup: Setup, cmd: string) returns (r: Result<seq<Run>, Fault>)
    ensures r == Collect(Outcomes(setup, cmd), ReadOutcome(setup.parseFloat))
  {
    ghost var outcomes := Outcomes(setup, cmd);
    var runs: seq<Run> := [];
    for t := 0 to Tries
      invariant Collect(outcomes[..t], ReadOutcome(setup.parseFloat)) == Ok(runs)
    {
      assert outcomes[..t + 1][..t] == outcomes[..t];
      var outcome := setup.exec(cmd, t);
      if outcome.Printed? {
        var parsed := ParseRun(outcome.stdout, setup.parseFloat);
        if parsed.Err? {
          r := Err(parsed.error);
          CollectStops(outcomes, t + 1, ReadOutcome(setup.parseFloat));
          return;
        }
        runs := runs + [parsed.value];
      }
    }
    assert outcomes[..Tries] == outcomes;
    r := Ok(runs);
  }

  /** One element more: its result is appended, skipped or stops the collection. */
  lemma CollectStep<A, B>(xs: seq<A>, i: nat, f: A -> Result<Option<B>, Fault>)
    requires i < |xs| && Collect(xs[..i], f).Ok?
    ensures Collect(xs[..i + 1], f) ==
      match f(xs[i])
      case Err(e) => Err(e)
      case Ok(None) => Collect(xs[..i], f)
      case Ok(Some(b)) => Ok(Collect(xs[..i], f).value + [b])
  {
    assert xs[..i + 1][..i] == xs[..i];
  }

  /** The first loop of a batch: each combination's command run ten times, in order. */
  method RunEntries(setup: Setup, batch: seq<Combo>) returns (r: Result<seq<(string, seq<Run>)>, Fault>)
    ensures r == Collect(batch, Entry(setup))
  {
    var entries: seq<(string, seq<Run>)> := [];
    for index := 0 to |batch|
      invariant Collect(batch[..index], Entry(setup)) == Ok(entries)
    {
      CollectStep(batch, index, Entry(setup));
      var cmd, key := Command(setup.programFile, setup.instanceFile, batch[index]);
      var runs := RunTries(setup, cmd);
      if runs.Err? {
        r := Err(runs.error);
        CollectStops(batch, index + 1, Entry(setup));
        return;
      }
      entries := entries + [(key, runs.value)];
    }
    assert batch[..|batch|] == batch;
    r := Ok(entries);
  }

  /** `execResults` built one combination at a time: a key met again gathers the new
      runs after its earlier ones, in its first place. */
  method GroupRuns(entries: seq<(string, seq<Run>)>) returns (groups: seq<(string, seq<Run>)>)
    ensures groups == Grouped(entries)
  {
    groups := [];
    for k := 0 to |entries|
      invariant groups == Grouped(entries[..k])
    {
      assert entries[..k + 1][..k] == entries[..k];
      var key, runs := entries[k].0, entries[k].1;
      var j := KeyIndex(groups, key);
      if j < 0 {
        groups := groups + [(key, runs)];
      } else {
        groups := groups[j := (key, groups[j].1 + runs)];
      }
    }
    assert entries[..|entries|] == entries;
  }

  /** The second loop of a batch: each key's runs aggregated into its log line, which is
      written at once; a key without runs stops the loop. */
  method SummarizeEntries(groups: seq<(string, seq<Run>)>, show: Num -> string) returns (lines: seq<string>, failure: Option<Fault>)
    ensures (lines, failure) == SummarizeAll(groups, show)
  {
    lines := [];
    for k := 0 to |groups|
      invariant SummarizeAll(groups[..k], show) == (lines, None)
    {
      assert groups[..k + 1][..k] == groups[..k];
      var summary := Aggregate(groups[k].1);
      if summary.Err? {
        SummarizeAllStops(groups, k + 1, show);
        return lines, Some(summary.error);
      }
      lines := lines + [LogLine(groups[k].0, summary.value, show)];
    }
    assert groups[..|groups|] == groups;
    failure := None;
  }

  /** Once the aggregation has failed, the later keys add nothing. */
  lemma {:induction false} SummarizeAllStops(groups: seq<(string, seq<Run>)>, n: nat, show: Num -> string)
    requires n <= |groups| && SummarizeAll(groups[..n], show).1.Some?
    ensures SummarizeAll(groups, show) == SummarizeAll(groups[..n], show)
    decreases |groups| - n
  {
    if n < |groups| {
      assert groups[..n + 1][..n] == groups[..n];
      SummarizeAllStops(groups, n + 1, show);
    } else {
      assert groups[..n] == groups;
    }
  }

  /** One batch: every combination's command run ten times, the runs gathered under their
      option keys, then each key's runs aggregated into its log line. */
  method RunBatch(setup: Setup, batch: seq<Combo>) returns (lines: seq<string>, failure: Option<Fault>)
    ensures (lines, failure) == BatchLog(setup, batch)
  {
    var entries := RunEntries(setup, batch);
    if entries.Err? {
      return [], Some(entries.error);
    }
    var groups := GroupRuns(entries.value);
    lines, failure := SummarizeEntries(groups, setup.show);
  }

  /** One pass of the main loop: the batch starting at `i`, and where the next starts. */
  method NextBatch(setup: Setup, perms: seq<Combo>, i: nat) returns (lines: seq<string>, failure: Option<Fault>, end: nat)
    requires i < |perms|
    ensures i < end <= |perms|
    ensures failure.Some? ==> ExperimentLog(setup, perms, i) == (lines, failure)
    ensures failure.None? ==>
      ExperimentLog(setup, perms, i) ==
        (lines + [ProgressLine(end)] + ExperimentLog(setup, perms, end).0, ExperimentLog(setup, perms, end).1)
  {
    end := if i + MaxThreads >= |perms| then |perms| else i + MaxThreads;
    assert end == BatchEnd(i, |perms|);
    lines, failure := RunBatch(setup, perms[i..end]);
  }

  /** The log so far, followed by what the main loop still produces from `i` on. */
  ghost predicate LogSoFar(setup: Setup, perms: seq<Combo>, log: seq<string>, i: nat)
  {
    var rest := ExperimentLog(setup, perms, i);
    ExperimentLog(setup, perms, 0) == (log + rest.0, rest.1)
  }

  /** Appending a batch's lines and its progress line moves the log on to the batch's end. */
  lemma LogSoFarStep(whole: (seq<string>, Option<Fault>), log: seq<string>, here: (seq<string>, Option<Fault>),
                     lines: seq<string>, progress: string, rest: (seq<string>, Option<Fault>))
    requires whole == (log + here.0, here.1)
    requires here == (lines + [progress] + rest.0, rest.1)
    ensures whole == ((log + lines + [progress]) + rest.0, rest.1)
  {
    assert log + (lines + [progress] + rest.0) == (log + lines + [progress]) + rest.0;
  }

  /** The main loop: batches of twenty combinations, each followed by its progress line;
      a failure ends it after the lines its batch had written. */
  method RunAll(setup: Setup, perms: seq<Combo>) returns (log: seq<string>, failure: Option<Fault>)
    ensures (log, failure) == ExperimentLog(setup, perms, 0)
  {
    log := [];
    var i := 0;
    assert [] + ExperimentLog(setup, perms, 0).0 == ExperimentLog(setup, perms, 0).0;
    while i < |perms|
      invariant i <= |perms|
      invariant LogSoFar(setup, perms, log, i)
      decreases |perms| - i
    {
      var lines, batchFailure, end := NextBatch(setup, perms, i);
      if batchFailure.Some? {
        return log + lines, batchFailure;
      }
      LogSoFarStep(ExperimentLog(setup, perms, 0), log, ExperimentLog(setup, perms, i),
                   lines, ProgressLine(end), ExperimentLog(setup, perms, end));
      log := log + lines + [ProgressLine(end)];
      i := end;
    }
    assert log + [] == log;
    failure := None;
  }
}
