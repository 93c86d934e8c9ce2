/**
 * scripts/instance-preprocessor.js: rewrites benchmark instance files into the layout
 * the solver's parser reads. Every POI line past the patterns loses fields 6-8 and 10,
 * and must be 22 fields long with a type flag `1` among its last ten kept fields; the
 * result is written next to the input under a name with `-out` before the extension.
 */
module InstancePreprocessor {
  import opened Wrappers
  import Text
  import JsText
  import ScriptPaths

  /** The two errors `parsePoi` throws; both name the line's first field. */
  datatype Fault = IncorrectLength(id: string, length: nat) | IncorrectType(id: string)

  /** Fields in a raw POI line. */
  const FieldCount := 22
  /** Fields at the end of a reshaped line that hold the type flags. */
  const FlagCount := 10

  /** Fields 0-5, field 9 and fields 11-21 of a raw POI line. */
  function Kept(fields: seq<string>): seq<string>
    requires |fields| == FieldCount
  {
    fields[..6] + [fields[9]] + fields[11..]
  }

  /** The field of the raw line that the `k`-th kept field comes from. */
  function Origin(k: nat): nat
  {
    if k < 6 then k else if k == 6 then 9 else k + 4
  }

  /** The reshaped line has 18 fields, taken in order from fields 0-5, 9 and 11-21. */
  lemma KeptOrigin(fields: seq<string>)
    requires |fields| == FieldCount
    ensures |Kept(fields)| == 18
    ensures forall k :: 0 <= k < 18 ==> Kept(fields)[k] == fields[Origin(k)]
    ensures forall k :: 0 <= k < 18 ==> Origin(k) < FieldCount && (Origin(k) < 6 || Origin(k) == 9 || Origin(k) >= 11)
  {
  }

  /** Some field among the last `FlagCount` is exactly `"1"`. */
  predicate Flagged(kept: seq<string>)
  {
    exists i :: |kept| - FlagCount <= i < |kept| && 0 <= i && kept[i] == "1"
  }

  /** The flag loop of `parsePoi`: scans down from the last field over the last ten and
      stops at the first `"1"`. An index below zero reads `undefined`, which is not `"1"`. */
  method HasTypeFlag(kept: seq<string>) returns (typeValid: bool)
    ensures typeValid <==> exists i :: |kept| - FlagCount <= i < |kept| && 0 <= i && kept[i] == "1"
  {
    typeValid := false;
    var i := |kept| - 1;
    while i >= |kept| - FlagCount
      invariant |kept| - FlagCount - 1 <= i < |kept|
      invariant forall j :: i < j < |kept| && 0 <= j ==> kept[j] != "1"
      decreases i - |kept| + FlagCount
    {
      if 0 <= i && kept[i] == "1" {
        typeValid := true;
        return;
      }
      i := i - 1;
    }
  }

  /** What `parsePoi` returns or throws for one line. */
  function PoiLine(line: string): Result<string, Fault>
  {
    var fields := Text.Split(line, ' ');
    if |fields| != FieldCount then Err(IncorrectLength(fields[0], |fields|))
    else if !Flagged(Kept(fields)) then Err(IncorrectType(fields[0]))
    else Ok(Text.Join(Kept(fields), " "))
  }

  /** `parsePoi(line)`. */
  method ParsePoi(line: string) returns (r: Result<string, Fault>)
    ensures r == PoiLine(line)
  {
    var fields := Text.Split(line, ' ');
    if |fields| != FieldCount {
      return Err(IncorrectLength(fields[0], |fields|));
    }
    var kept := fields[..6] + [fields[9]] + fields[11..];
    var typeValid := HasTypeFlag(kept);
    if !typeValid {
      return Err(IncorrectType(kept[0]));
    }
    r := Ok(Text.Join(kept, " "));
  }

  /** A line is accepted exactly when it has 22 fields and one of its last ten fields
      (fields 12-21, the last ten kept) is `"1"`. */
  lemma PoiLineAccepts(line: string)
    ensures PoiLine(line).Ok? <==>
      |Text.Split(line, ' ')| == FieldCount &&
      exists j :: 12 <= j < FieldCount && Text.Split(line, ' ')[j] == "1"
  {
    var fields := Text.Split(line, ' ');
    if |fields| == FieldCount {
      var kept := Kept(fields);
      KeptOrigin(fields);
      if Flagged(kept) {
        var i :| 8 <= i < 18 && kept[i] == "1";
        assert fields[Origin(i)] == "1" && 12 <= Origin(i) < FieldCount;
      }
      if exists j :: 12 <= j < FieldCount && fields[j] == "1" {
        var j :| 12 <= j < FieldCount && fields[j] == "1";
        assert kept[j - 4] == "1";
      }
    }
  }

  /** A line without exactly 22 fields is rejected with its field count. */
  lemma PoiLineLength(line: string)
    requires |Text.Split(line, ' ')| != FieldCount
    ensures PoiLine(line) == Err(IncorrectLength(Text.Split(line, ' ')[0], |Text.Split(line, ' ')|))
  {
  }

  /** An accepted line splits back into its 18 kept fields: fields 0-5, 9 and 11-21 of
      the input, in order. */
  lemma PoiLineFields(line: string)
    requires PoiLine(line).Ok?
    ensures |Text.Split(PoiLine(line).value, ' ')| == 18
    ensures forall k :: 0 <= k < 18 ==>
      Text.Split(PoiLine(line).value, ' ')[k] == Text.Split(line, ' ')[Origin(k)]
  {
    var fields := Text.Split(line, ' ');
    KeptOrigin(fields);
    Text.SplitJoin(Kept(fields), ' ');
  }

  /** `parseInt` of the header's first space-separated field; `None` is `NaN`. */
  function TourCount(header: string): Option<int>
  {
    JsText.ParseInt(Text.Split(header, ' ')[0])
  }

  /** Line `i` goes through `parsePoi`: it is not the header and lies past `3 + tourCount`
      (any comparison with `NaN` is false). */
  predicate IsPoiLine(tourCount: Option<int>, i: nat)
  {
    i > 0 && tourCount.Some? && i > 3 + tourCount.value
  }

  /** What line `i` becomes. */
  function LineOut(lines: seq<string>, tourCount: Option<int>, i: nat): Result<string, Fault>
    requires i < |lines|
  {
    if IsPoiLine(tourCount, i) then PoiLine(lines[i]) else Ok(lines[i])
  }

  /** Lines `i` onwards, rewritten in order; the first failure ends the file. */
  function RewriteFrom(lines: seq<string>, tourCount: Option<int>, i: nat): Result<seq<string>, Fault>
    decreases |lines| - i
  {
    if i >= |lines| then Ok([])
    else
      match LineOut(lines, tourCount, i)
      case Err(e) => Err(e)
      case Ok(l) =>
        match RewriteFrom(lines, tourCount, i + 1)
        case Err(e) => Err(e)
        case Ok(rest) => Ok([l] + rest)
  }

  /** The rewrite of a file's non-empty lines. */
  function Rewrite(lines: seq<string>): Result<seq<string>, Fault>
  {
    if lines == [] then Ok([]) else RewriteFrom(lines, TourCount(lines[0]), 0)
  }

  /** `RewriteFrom` succeeds exactly when every line from `i` on does, and then holds each
      line's rewrite at its own position. */
  lemma {:induction false} RewriteFromOk(lines: seq<string>, tourCount: Option<int>, i: nat)
    requires i <= |lines|
    ensures RewriteFrom(lines, tourCount, i).Ok? <==>
      forall j :: i <= j < |lines| ==> LineOut(lines, tourCount, j).Ok?
    ensures RewriteFrom(lines, tourCount, i).Ok? ==>
      |RewriteFrom(lines, tourCount, i).value| == |lines| - i &&
      forall k :: 0 <= k < |lines| - i ==>
        RewriteFrom(lines, tourCount, i).value[k] == LineOut(lines, tourCount, i + k).value
    decreases |lines| - i
  {
    if i < |lines| {
      RewriteFromOk(lines, tourCount, i + 1);
      var r := RewriteFrom(lines, tourCount, i);
      assert r.Ok? <==> LineOut(lines, tourCount, i).Ok? && RewriteFrom(lines, tourCount, i + 1).Ok?;
      assert (forall j :: i <= j < |lines| ==> LineOut(lines, tourCount, j).Ok?) <==>
        LineOut(lines, tourCount, i).Ok? && forall j :: i + 1 <= j < |lines| ==> LineOut(lines, tourCount, j).Ok?;
      if r.Ok? {
        var rest := RewriteFrom(lines, tourCount, i + 1).value;
        assert r.value == [LineOut(lines, tourCount, i).value] + rest;
        forall k | 1 <= k < |lines| - i
          ensures r.value[k] == LineOut(lines, tourCount, i + k).value
        {
          assert r.value[k] == rest[k - 1];
        }
      }
    }
  }

  /** The error of `RewriteFrom` is that of the first line that fails. */
  lemma {:induction false} RewriteFromFirstError(lines: seq<string>, tourCount: Option<int>, i: nat, j: nat)
    requires i <= j < |lines|
    requires forall m :: i <= m < j ==> LineOut(lines, tourCount, m).Ok?
    requires LineOut(lines, tourCount, j).Err?
    ensures RewriteFrom(lines, tourCount, i) == Err(LineOut(lines, tourCount, j).error)
    decreases j - i
  {
    if i < j {
      RewriteFromFirstError(lines, tourCount, i + 1, j);
    }
  }

  /** A successful rewrite keeps the number of lines, passes the header, the counts and
      the patterns through unchanged, and holds the reshaped form of every later line. */
  lemma RewriteMeaning(lines: seq<string>)
    requires lines != [] && Rewrite(lines).Ok?
    ensures |Rewrite(lines).value| == |lines|
    ensures forall i :: 0 <= i < |lines| && !IsPoiLine(TourCount(lines[0]), i) ==>
      Rewrite(lines).value[i] == lines[i]
    ensures forall i :: 0 <= i < |lines| && IsPoiLine(TourCount(lines[0]), i) ==>
      PoiLine(lines[i]) == Ok(Rewrite(lines).value[i])
  {
    RewriteFromStart(lines, TourCount(lines[0]));
  }

  /** `RewriteFrom` from the first line, for any tour count. */
  lemma RewriteFromStart(lines: seq<string>, tourCount: Option<int>)
    requires RewriteFrom(lines, tourCount, 0).Ok?
    ensures |RewriteFrom(lines, tourCount, 0).value| == |lines|
    ensures forall i :: 0 <= i < |lines| && !IsPoiLine(tourCount, i) ==>
      RewriteFrom(lines, tourCount, 0).value[i] == lines[i]
    ensures forall i :: 0 <= i < |lines| && IsPoiLine(tourCount, i) ==>
      PoiLine(lines[i]) == Ok(RewriteFrom(lines, tourCount, 0).value[i])
  {
    RewriteFromOk(lines, tourCount, 0);
  }

  /** A rewrite fails exactly when some line past the patterns is rejected. */
  lemma RewriteFails(lines: seq<string>)
    requires lines != []
    ensures Rewrite(lines).Err? <==>
      exists i :: 0 <= i < |lines| && IsPoiLine(TourCount(lines[0]), i) && PoiLine(lines[i]).Err?
  {
    RewriteFromStartFails(lines, TourCount(lines[0]));
  }

  /** `RewriteFrom` from the first line fails exactly when some line it parses is
      rejected, for any tour count. */
  lemma RewriteFromStartFails(lines: seq<string>, tourCount: Option<int>)
    ensures RewriteFrom(lines, tourCount, 0).Err? <==>
      exists i :: 0 <= i < |lines| && IsPoiLine(tourCount, i) && PoiLine(lines[i]).Err?
  {
    RewriteFromOk(lines, tourCount, 0);
    if RewriteFrom(lines, tourCount, 0).Err? {
      var i :| 0 <= i < |lines| && LineOut(lines, tourCount, i).Err?;
      assert IsPoiLine(tourCount, i);
    }
    if exists i :: 0 <= i < |lines| && IsPoiLine(tourCount, i) && PoiLine(lines[i]).Err? {
      var i :| 0 <= i < |lines| && IsPoiLine(tourCount, i) && PoiLine(lines[i]).Err?;
      assert LineOut(lines, tourCount, i).Err?;
    }
  }

  /** One pass of the per-line loop: line `i` is rewritten in place when it lies past the
      patterns; nothing else in `content` changes. */
  method RewriteAt(content: array<string>, tourCount: Option<int>, i: nat, ghost lines: seq<string>)
    returns (failure: Option<Fault>)
    requires 0 < i < content.Length == |lines| && content[i] == lines[i]
    modifies content
    ensures failure.None? ==> LineOut(lines, tourCount, i) == Ok(content[i])
    ensures failure.Some? ==> LineOut(lines, tourCount, i) == Err(failure.value)
    ensures forall j :: 0 <= j < content.Length && j != i ==> content[j] == old(content[j])
  {
    failure := None;
    if tourCount.Some? && i > 3 + tourCount.value {
      var parsed := ParsePoi(content[i]);
      match parsed {
        case Err(e) =>
          failure := Some(e);
        case Ok(l) =>
          content[i] := l;
      }
    }
  }

  /** The per-line loop of the main program, rewriting `content` in place. On failure the
      lines before the failing one have been rewritten and the rest are untouched; the
      file is then not written. */
  method RewriteLines(content: array<string>) returns (failure: Option<Fault>)
    modifies content
    ensures failure.None? ==> Rewrite(old(content[..])) == Ok(content[..])
    ensures failure.Some? ==> Rewrite(old(content[..])) == Err(failure.value)
  {
    if content.Length == 0 {
      return None;
    }
    var tourCount := TourCount(content[0]);
    failure := RewriteFromSecond(content, tourCount);
  }

  /** The loop from the second line on, for the tour count read off the header. */
  method RewriteFromSecond(content: array<string>, tourCount: Option<int>) returns (failure: Option<Fault>)
    requires content.Length > 0
    modifies content
    ensures failure.None? ==> RewriteFrom(old(content[..]), tourCount, 0) == Ok(content[..])
    ensures failure.Some? ==> RewriteFrom(old(content[..]), tourCount, 0) == Err(failure.value)
  {
    ghost var lines := content[..];
    for i := 1 to content.Length
      invariant forall j :: 0 <= j < i ==> LineOut(lines, tourCount, j) == Ok(content[j])
      invariant forall j :: i <= j < content.Length ==> content[j] == lines[j]
    {
      failure := RewriteAt(content, tourCount, i, lines);
      if failure.Some? {
        RewriteFromFirstError(lines, tourCount, 0, i);
        return;
      }
    }
    RewriteFromOk(lines, tourCount, 0);
    ghost var out := RewriteFrom(lines, tourCount, 0).value;
    forall j | 0 <= j < content.Length
      ensures content[j] == out[j]
    {
      assert LineOut(lines, tourCount, j) == Ok(content[j]);
    }
    assert content[..] == out;
    failure := None;
  }

  /** The name the rewritten file is written to: the last `.`-separated piece but one gets
      `-out`. A name without `.` comes back unchanged: the program then writes `-out` to
      index -1 of an emptied array, which is not an element, and pushes the whole name
      back. */
  function OutputName(f: string): (r: string)
    ensures '.' !in f ==> r == f
  {
    var parts := Text.Split(f, '.');
    assert '.' !in f ==> |parts| == 1 by {
      if '.' !in f { Text.SplitNoSeparator(f, '.'); }
    }
    if |parts| == 1 then f
    else
      var n := |parts|;
      Text.Join(parts[..n - 2] + [parts[n - 2] + "-out", parts[n - 1]], ".")
  }

  /** `x/a.txt` is written as `x/a-out.txt`: `-out` goes in front of the last extension. */
  lemma OutputNameInsertsOut(stem: string, ext: string)
    requires '.' !in ext
    ensures OutputName(stem + "." + ext) == stem + "-out" + "." + ext
  {
    assert "." == ['.'];
    TagBeforeLast(stem, ext, "-out", '.');
  }

  /** Tagging the next-to-last `c`-separated piece of `stem + [c] + ext`, where `ext` holds
      no `c`, tags the end of `stem`. */
  lemma TagBeforeLast(stem: string, ext: string, tag: string, c: char)
    requires c !in ext
    ensures var parts := Text.Split(stem + [c] + ext, c);
      |parts| >= 2 &&
      Text.Join(parts[..|parts| - 2] + [parts[|parts| - 2] + tag, parts[|parts| - 1]], [c])
        == stem + tag + [c] + ext
  {
    var parts := Text.Split(stem + [c] + ext, c);
    var front := Text.Split(stem, c);
    Text.SplitConcat(stem, c, ext);
    Text.SplitNoSeparator(ext, c);
    assert parts == front + [ext];
    var n := |parts|;
    var tagged := front[..|front| - 1] + [front[|front| - 1] + tag];
    assert parts[..n - 2] + [parts[n - 2] + tag, parts[n - 1]] == tagged + [ext];
    Text.JoinSnoc(tagged, ext, [c]);
    Text.JoinExtendLast(front, tag, [c]);
    Text.JoinSplit(stem, c);
  }

  /** One file: its non-empty lines rewritten and joined with newlines, and the name they
      are written to. */
  function Preprocessed(f: string, text: string): Result<(string, string), Fault>
  {
    match Rewrite(JsText.Filter(Text.Split(text, '\n'), JsText.Truthy))
    case Err(e) => Err(e)
    case Ok(out) => Ok((OutputName(f), Text.Join(out, "\n")))
  }

  /** The body of the `forEach` for one file whose text has been read. */
  method PreprocessFile(f: string, text: string) returns (r: Result<(string, string), Fault>)
    ensures r == Preprocessed(f, text)
  {
    var lines := JsText.Filter(Text.Split(text, '\n'), JsText.Truthy);
    var content := new string[|lines|](k requires 0 <= k < |lines| => lines[k]);
    assert content[..] == lines;
    var failure := RewriteLines(content);
    if failure.Some? {
      return Err(failure.value);
    }
    r := Ok((OutputName(f), Text.Join(content[..], "\n")));
  }

  /** One command-line file, resolved against the working directory and read. */
  method PreprocessArg(cwd: string, arg: string, read: string -> string) returns (r: Result<(string, string), Fault>)
    ensures r == Preprocessed(ScriptPaths.Resolve(cwd, arg), read(ScriptPaths.Resolve(cwd, arg)))
  {
    var f := ScriptPaths.Resolve(cwd, arg);
    r := PreprocessFile(f, read(f));
  }

  /** The main program over the command-line files: each is resolved against the working
      directory, read through `read`, rewritten and written; the first failure ends the
      whole run, so later files are not written. */
  method PreprocessAll(cwd: string, args: seq<string>, read: string -> string)
    returns (written: seq<(string, string)>, failure: Option<Fault>)
    ensures |written| <= |args|
    ensures forall k :: 0 <= k < |written| ==>
      Preprocessed(ScriptPaths.Resolve(cwd, args[k]), read(ScriptPaths.Resolve(cwd, args[k]))) == Ok(written[k])
    ensures failure.None? <==> |written| == |args|
    ensures failure.Some? ==>
      Preprocessed(ScriptPaths.Resolve(cwd, args[|written|]), read(ScriptPaths.Resolve(cwd, args[|written|])))
        == Err(failure.value)
  {
    written := [];
    for k := 0 to |args|
      invariant |written| == k
      invariant forall m :: 0 <= m < k ==>
        Preprocessed(ScriptPaths.Resolve(cwd, args[m]), read(ScriptPaths.Resolve(cwd, args[m]))) == Ok(written[m])
    {
      var r := PreprocessArg(cwd, args[k], read);
      if r.Err? {
        return written, Some(r.error);
      }
      ghost var before := written;
      written := written + [r.value];
      forall m | 0 <= m < k + 1
        ensures Preprocessed(ScriptPaths.Resolve(cwd, args[m]), read(ScriptPaths.Resolve(cwd, args[m]))) == Ok(written[m])
      {
        if m < k {
          assert written[m] == before[m];
        }
      }
    }
    failure := None;
  }
}
