/**
 * What scripts/process-experiment-results.js and scripts/calc-experiment-results.js write
 * from the sorted records: `INSERT` statements of at most a hundred rows each (and CSV
 * files of query results) for the first, one `;`-separated CSV file for the second; and
 * the two scripts' main flows from the command-line arguments to that text.
 */
module ResultsOutput {
  import opened Wrappers
  import Text
  import JsText
  import ScriptPaths
  import RunExperiment
  import opened ExperimentResults
  import ResultsOrder

  // ---------------------------------------------------------------------------
  // Record fields and columns
  // ---------------------------------------------------------------------------

  /** `"${s}"`. */
  function Quoted(s: string): string
  {
    "\"" + s + "\""
  }

  /** The property paths of the fifteen columns both scripts write, in their order. */
  const ColumnPaths: seq<seq<string>> := [["avgScore"], ["avgTime"], ["bestScore"], ["params", "sa-seed"],
    ["params", "sa-max-iter"], ["params", "sa-cool-fact"], ["params", "sa-min-swap"], ["params", "sa-max-swap"],
    ["params", "sa-max-del"], ["params", "sa-max-ins"], ["params", "sa-init-sol"], ["params", "sa-cool-func"],
    ["bestTime"], ["bestIters"], ["bestSol"]]

  /** The dotted keys of the columns: `avgScore`, `avgTime`, `bestScore`, `params.sa-seed`,
      ..., `params.sa-cool-func`, `bestTime`, `bestIters`, `bestSol`. */
  function Columns(): seq<string>
  {
    seq(15, j requires 0 <= j < 15 => Text.Join(ColumnPaths[j], "."))
  }

  /** The fifteen values a row is made of, read as the templates read them
      (`val['avgScore']`, `val['params']['sa-seed']`, ...). */
  function Fields(r: Record): seq<Value>
  {
    [r.avgScore, r.avgTime, r.bestScore, Get(r.params, "sa-seed"), Get(r.params, "sa-max-iter"),
     Get(r.params, "sa-cool-fact"), Get(r.params, "sa-min-swap"), Get(r.params, "sa-max-swap"),
     Get(r.params, "sa-max-del"), Get(r.params, "sa-max-ins"), Get(r.params, "sa-init-sol"),
     Get(r.params, "sa-cool-func"), r.bestTime, r.bestIters, r.bestSol]
  }

  /** The record's own properties, as the object the sort keys walk. */
  lemma RecordProperties(r: Record)
    ensures Property(AsValue(r), "params") == Ok(Object(r.params))
    ensures Property(AsValue(r), "avgScore") == Ok(r.avgScore)
    ensures Property(AsValue(r), "avgTime") == Ok(r.avgTime)
    ensures Property(AsValue(r), "bestScore") == Ok(r.bestScore)
    ensures Property(AsValue(r), "bestTime") == Ok(r.bestTime)
    ensures Property(AsValue(r), "bestIters") == Ok(r.bestIters)
    ensures Property(AsValue(r), "bestSol") == Ok(r.bestSol)
  {
    var fs := AsValue(r).fields;
    assert fs[0].0 == "params";
    assert fs[1..][0].0 == "avgScore" && fs[1..][1..] == fs[2..];
    assert fs[2..][0].0 == "avgTime" && fs[2..][1..] == fs[3..];
    assert fs[3..][0].0 == "bestScore" && fs[3..][1..] == fs[4..];
    assert fs[4..][0].0 == "bestTime" && fs[4..][1..] == fs[5..];
    assert fs[5..][0].0 == "bestIters" && fs[5..][1..] == fs[6..];
    assert fs[6..][0].0 == "bestSol";
    GetStep(fs, "avgScore");
    GetStep(fs, "avgTime");
    GetStep(fs[1..], "avgTime");
    GetStep(fs, "bestScore");
    GetStep(fs[1..], "bestScore");
    GetStep(fs[2..], "bestScore");
    GetStep(fs, "bestTime");
    GetStep(fs[1..], "bestTime");
    GetStep(fs[2..], "bestTime");
    GetStep(fs[3..], "bestTime");
    GetStep(fs, "bestIters");
    GetStep(fs[1..], "bestIters");
    GetStep(fs[2..], "bestIters");
    GetStep(fs[3..], "bestIters");
    GetStep(fs[4..], "bestIters");
    GetStep(fs, "bestSol");
    GetStep(fs[1..], "bestSol");
    GetStep(fs[2..], "bestSol");
    GetStep(fs[3..], "bestSol");
    GetStep(fs[4..], "bestSol");
    GetStep(fs[5..], "bestSol");
  }

  /** Reading past the first property when it has another name. */
  lemma GetStep(fields: seq<(string, Value)>, key: string)
    requires fields != []
    ensures Get(fields, key) == if fields[0].0 == key then fields[0].1 else Get(fields[1..], key)
  {
  }

  /** No step of a column path holds a dot. */
  lemma ColumnPathsPlain()
    ensures forall j, k :: 0 <= j < 15 && 0 <= k < |ColumnPaths[j]| ==> '.' !in ColumnPaths[j][k]
  {
  }

  /** Walking a one-step path reads one property; a two-step path from an object whose
      property is an object reads a property of that property. */
  lemma LookupShort(value: Value, path: seq<string>)
    requires value.Object? && 1 <= |path| <= 2
    ensures |path| == 1 ==> Lookup(value, path) == Property(value, path[0])
    ensures |path| == 2 && Property(value, path[0]).value.Object? ==>
      Lookup(value, path) == Property(Property(value, path[0]).value, path[1])
  {
    var next := Property(value, path[0]).value;
    assert Lookup(value, path) == Lookup(next, path[1..]);
    if |path| == 2 && next.Object? {
      assert Lookup(next, path[1..]) == Lookup(Property(next, path[1]).value, path[2..]);
    }
  }

  /** Column `j` of a row is the value at the end of the `j`-th column path. */
  lemma FieldIsPath(r: Record, j: nat)
    requires j < 15
    ensures Lookup(AsValue(r), ColumnPaths[j]) == Ok(Fields(r)[j])
  {
    RecordProperties(r);
    LookupShort(AsValue(r), ColumnPaths[j]);
  }

  /** Every column's dotted key can be read on every record, and column `j` of a row holds
      the value the sort sees under it: the column list, the templates and the sort keys
      agree. */
  lemma FieldsAreColumns(r: Record)
    ensures |Fields(r)| == |Columns()| == 15
    ensures forall j :: 0 <= j < 15 ==> ResultsOrder.Key(r, Columns()[j]) == Ok(Fields(r)[j])
  {
    ColumnPathsPlain();
    forall j | 0 <= j < 15
      ensures ResultsOrder.Key(r, Columns()[j]) == Ok(Fields(r)[j])
    {
      Text.SplitJoin(ColumnPaths[j], '.');
      FieldIsPath(r, j);
    }
  }

  // ---------------------------------------------------------------------------
  // prepSql: chunks of a hundred, one INSERT each
  // ---------------------------------------------------------------------------

  /** How many records one `INSERT` statement takes. */
  const ChunkSize: nat := 100

  /** The records in groups of a hundred, in order; the last group holds the rest. */
  function Chunks<T>(xs: seq<T>): seq<seq<T>>
    decreases |xs|
  {
    if xs == [] then []
    else if |xs| <= ChunkSize then [xs]
    else [xs[..ChunkSize]] + Chunks(xs[ChunkSize..])
  }

  /** The groups put back one after the other. */
  function Flatten<T>(xss: seq<seq<T>>): seq<T>
    decreases |xss|
  {
    if xss == [] then [] else xss[0] + Flatten(xss[1..])
  }

  /** The groups hold the records in order and nothing else; there are as many as a
      hundred fits into the count rounded up; each holds one to a hundred records, and
      every group but the last exactly a hundred. */
  lemma {:induction false} ChunksMeaning<T>(xs: seq<T>)
    ensures Flatten(Chunks(xs)) == xs
    ensures |Chunks(xs)| == (|xs| + ChunkSize - 1) / ChunkSize
    ensures forall c :: 0 <= c < |Chunks(xs)| ==> 1 <= |Chunks(xs)[c]| <= ChunkSize
    ensures forall c :: 0 <= c < |Chunks(xs)| - 1 ==> |Chunks(xs)[c]| == ChunkSize
    decreases |xs|
  {
    if |xs| > ChunkSize {
      var rest := xs[ChunkSize..];
      ChunksMeaning(rest);
      assert Chunks(xs)[1..] == Chunks(rest);
      assert forall c :: 0 < c < |Chunks(xs)| ==> Chunks(xs)[c] == Chunks(rest)[c - 1];
      assert xs[..ChunkSize] + rest == xs;
    }
  }

  /** Record `k` of group `c` is record `100 * c + k` of the input. */
  lemma {:induction false} ChunkIndex<T>(xs: seq<T>, c: nat, k: nat)
    requires c < |Chunks(xs)| && k < |Chunks(xs)[c]|
    ensures ChunkSize * c + k < |xs| && Chunks(xs)[c][k] == xs[ChunkSize * c + k]
    decreases |xs|
  {
    if c > 0 {
      ChunkIndex(xs[ChunkSize..], c - 1, k);
    }
  }

  /** One more record opens a new group when the count so far is a multiple of a hundred,
      and joins the last group otherwise. */
  lemma {:induction false} ChunksSnoc<T>(p: seq<T>, x: T)
    ensures |p| % ChunkSize == 0 ==> Chunks(p + [x]) == Chunks(p) + [[x]]
    ensures |p| % ChunkSize != 0 ==>
      (Chunks(p) != [] && Chunks(p + [x]) == Chunks(p)[..|Chunks(p)| - 1] + [Chunks(p)[|Chunks(p)| - 1] + [x]])
    decreases |p|
  {
    var q := p + [x];
    if |p| > ChunkSize {
      assert q[..ChunkSize] == p[..ChunkSize];
      assert q[ChunkSize..] == p[ChunkSize..] + [x];
      ChunksSnoc(p[ChunkSize..], x);
      var rest := Chunks(p[ChunkSize..]);
      assert Chunks(p) == [p[..ChunkSize]] + rest;
      if |p| % ChunkSize != 0 {
        assert Chunks(p)[..|Chunks(p)| - 1] == [p[..ChunkSize]] + rest[..|rest| - 1];
      }
    } else if |p| == ChunkSize {
      assert q[..ChunkSize] == p;
      assert q[ChunkSize..] == [x];
      assert Chunks(p) == [p] && Chunks([x]) == [[x]];
      assert Chunks(q) == [q[..ChunkSize]] + Chunks(q[ChunkSize..]);
    } else if p == [] {
      assert q == [x];
    }
  }

  /** The `forEach` of `prepSql`: a new group whenever the index is a multiple of a
      hundred, and each record pushed onto the last group. */
  method ChunkRecords<T>(records: seq<T>) returns (stmts: seq<seq<T>>)
    ensures stmts == Chunks(records)
  {
    stmts := [];
    for i := 0 to |records|
      invariant stmts == Chunks(records[..i])
    {
      ChunksSnoc(records[..i], records[i]);
      assert records[..i + 1] == records[..i] + [records[i]];
      if i % ChunkSize == 0 {
        var grown := stmts + [[]];
        assert grown[..|grown| - 1] == stmts && grown[|grown| - 1] + [records[i]] == [records[i]];
        stmts := grown;
      }
      stmts := stmts[..|stmts| - 1] + [stmts[|stmts| - 1] + [records[i]]];
    }
    assert records[..|records|] == records;
  }

  /** The text every statement starts with. */
  const InsertHeader: string := "INSERT INTO results (" + SqlColumnList + ") VALUES\n"

  /** The table columns, in the order of `Columns`. */
  const SqlColumnList: string := "avgScore, avgTime, bestScore, params_sa_seed, params_sa_max_iter, params_sa_cool_fact, params_sa_min_swap, params_sa_max_swap, params_sa_max_del, params_sa_max_ins, params_sa_init_sol, params_sa_cool_func, bestTime, bestIters, bestSol"

  /** The columns written between double quotes: the two text parameters and the best
      solution. */
  predicate TextColumn(j: nat)
  {
    j == 10 || j == 11 || j == 14
  }

  /** The fifteen values of a row as the statement writes them. */
  function SqlCells(r: Record, show: Num -> string): seq<string>
  {
    seq(15, j requires 0 <= j < 15 =>
      if TextColumn(j) then Quoted(Render(Fields(r)[j], show)) else Render(Fields(r)[j], show))
  }

  /** One row of the `VALUES` list. */
  function SqlRow(r: Record, show: Num -> string): string
  {
    "(" + Text.Join(SqlCells(r, show), ",") + ")"
  }

  /** The rows of a group, in order. */
  function SqlRows(chunk: seq<Record>, show: Num -> string): seq<string>
  {
    seq(|chunk|, k requires 0 <= k < |chunk| => SqlRow(chunk[k], show))
  }

  /** One statement: the header and the rows joined by `,\n`, trimmed. */
  function Statement(chunk: seq<Record>, show: Num -> string): string
  {
    JsText.JsTrim(InsertHeader + Text.Join(SqlRows(chunk, show), ",\n"))
  }

  /** `stmts.map(...)`: one statement per group. */
  function SqlStatements(records: seq<Record>, show: Num -> string): seq<string>
  {
    var chunks := Chunks(records);
    seq(|chunks|, c requires 0 <= c < |chunks| => Statement(chunks[c], show))
  }

  /** The file written: the statements joined by `;\n`, and a final `;\n`. */
  function SqlFile(stmts: seq<string>): string
  {
    Text.Join(stmts, ";\n") + ";\n"
  }

  /** Each text followed by `end`, one after the other. */
  function Terminated(texts: seq<string>, end: string): string
    decreases |texts|
  {
    if texts == [] then "" else texts[0] + end + Terminated(texts[1..], end)
  }

  /** The joined text ends with the last part. */
  lemma {:induction false} JoinEndsWith(parts: seq<string>, sep: string)
    requires parts != []
    ensures var j := Text.Join(parts, sep); var last := parts[|parts| - 1];
      |last| <= |j| && j[|j| - |last|..] == last
    decreases |parts|
  {
    if |parts| > 1 {
      JoinEndsWith(parts[1..], sep);
    }
  }

  /** For a group that is not empty, trimming leaves the statement as built: it starts
      with `INSERT` and ends with the `)` of its last row. */
  lemma StatementUntrimmed(chunk: seq<Record>, show: Num -> string)
    requires chunk != []
    ensures Statement(chunk, show) == InsertHeader + Text.Join(SqlRows(chunk, show), ",\n")
  {
    var rows := SqlRows(chunk, show);
    var body := Text.Join(rows, ",\n");
    var t := InsertHeader + body;
    JoinEndsWith(rows, ",\n");
    var last := rows[|rows| - 1];
    assert last[|last| - 1] == ')';
    assert t[|t| - 1] == body[|body| - 1] == ')';
    assert t[0] == 'I';
    Text.TrimUnchanged(t, JsText.IsJsWhiteSpace);
  }

  /** There is one statement per group of a hundred records, each the header followed by
      the group's rows; and the file ends every statement with `;\n`. */
  lemma SqlStatementsMeaning(records: seq<Record>, show: Num -> string)
    ensures |SqlStatements(records, show)| == (|records| + ChunkSize - 1) / ChunkSize
    ensures forall c :: 0 <= c < |SqlStatements(records, show)| ==>
      SqlStatements(records, show)[c] == InsertHeader + Text.Join(SqlRows(Chunks(records)[c], show), ",\n")
  {
    ChunksMeaning(records);
    var chunks := Chunks(records);
    var stmts := SqlStatements(records, show);
    forall c | 0 <= c < |chunks|
      ensures stmts[c] == InsertHeader + Text.Join(SqlRows(chunks[c], show), ",\n")
    {
      assert stmts[c] == Statement(chunks[c], show);
      StatementUntrimmed(chunks[c], show);
    }
  }

  /** Joining with `;\n` and adding a final `;\n` ends every statement with `;\n`. */
  lemma {:induction false} SqlFileTerminated(stmts: seq<string>)
    requires stmts != []
    ensures SqlFile(stmts) == Terminated(stmts, ";\n")
    decreases |stmts|
  {
    if |stmts| > 1 {
      SqlFileTerminated(stmts[1..]);
    }
  }

  /** Without commas in the values, a row reads back as its fifteen cells, each the value
      the sort sees under the column's dotted key, quoted in the three text columns. */
  lemma SqlRowCells(r: Record, show: Num -> string)
    requires forall j :: 0 <= j < 15 ==> ',' !in Render(Fields(r)[j], show)
    ensures var row := SqlRow(r, show);
      |row| >= 2 && Text.Split(row[1..|row| - 1], ',') == SqlCells(r, show)
    ensures |SqlCells(r, show)| == 15
    ensures forall j :: 0 <= j < 15 ==>
      ResultsOrder.Key(r, Columns()[j]).Ok?
      && SqlCells(r, show)[j] == if TextColumn(j) then Quoted(Render(ResultsOrder.Key(r, Columns()[j]).value, show))
                                 else Render(ResultsOrder.Key(r, Columns()[j]).value, show)
  {
    SqlRowSplits(r, show);
    FieldsAreColumns(r);
    var cells := SqlCells(r, show);
    forall j | 0 <= j < 15
      ensures ResultsOrder.Key(r, Columns()[j]).Ok?
      ensures cells[j] == if TextColumn(j) then Quoted(Render(ResultsOrder.Key(r, Columns()[j]).value, show))
                          else Render(ResultsOrder.Key(r, Columns()[j]).value, show)
    {
      assert ResultsOrder.Key(r, Columns()[j]) == Ok(Fields(r)[j]);
    }
  }

  /** Without commas in the values, a row splits back into its fifteen cells. */
  lemma SqlRowSplits(r: Record, show: Num -> string)
    requires forall j :: 0 <= j < 15 ==> ',' !in Render(Fields(r)[j], show)
    ensures var row := SqlRow(r, show);
      |row| >= 2 && Text.Split(row[1..|row| - 1], ',') == SqlCells(r, show)
    ensures |SqlCells(r, show)| == 15
  {
    var cells := SqlCells(r, show);
    forall j | 0 <= j < 15
      ensures ',' !in cells[j]
    {
      assert TextColumn(j) ==> cells[j] == "\"" + Render(Fields(r)[j], show) + "\"";
    }
    Text.SplitJoin(cells, ',');
    var row := SqlRow(r, show);
    assert row[1..|row| - 1] == Text.Join(cells, ",");
  }

  // ---------------------------------------------------------------------------
  // prepCsv: a query result as CSV
  // ---------------------------------------------------------------------------

  /** `Object.keys(row)`. */
  function Keys(row: seq<(string, Value)>): seq<string>
  {
    seq(|row|, k requires 0 <= k < |row| => row[k].0)
  }

  /** A cell: a number as it is, anything else between double quotes. */
  function CsvCell(v: Value, show: Num -> string): string
  {
    if v.Number? then show(v.n) else Quoted(Render(v, show))
  }

  /** The cells of a row, one per field name. */
  function CsvCells(row: seq<(string, Value)>, fields: seq<string>, show: Num -> string): seq<string>
  {
    seq(|fields|, k requires 0 <= k < |fields| => CsvCell(Get(row, fields[k]), show))
  }

  /** The quoted field names. */
  function CsvNames(fields: seq<string>): seq<string>
  {
    seq(|fields|, k requires 0 <= k < |fields| => Quoted(fields[k]))
  }

  /** `prepCsv(rows)`: the header of quoted field names of the first row, then one line
      per row; an empty result stops the script (`Object.keys(undefined)` throws). */
  function PrepCsv(rows: seq<seq<(string, Value)>>, show: Num -> string): (r: Result<string, Fault>)
    ensures r.Err? <==> rows == []
  {
    if rows == [] then Err(NoRecords)
    else
      var fields := Keys(rows[0]);
      var lines := seq(|rows|, i requires 0 <= i < |rows| => Text.Join(CsvCells(rows[i], fields, show), ","));
      Ok(Text.Join([Text.Join(CsvNames(fields), ",")] + lines, "\n"))
  }

  /** Without line breaks in names and cells, the content is one header line naming the
      first row's fields between quotes, then one line per row in order; and without
      commas, each line splits back into its cells, numbers bare and the rest quoted. */
  lemma PrepCsvLines(rows: seq<seq<(string, Value)>>, show: Num -> string)
    requires rows != [] && rows[0] != []
    requires forall k :: 0 <= k < |rows[0]| ==> '\n' !in rows[0][k].0 && ',' !in rows[0][k].0
    requires forall i, k :: 0 <= i < |rows| && 0 <= k < |rows[0]| ==>
      '\n' !in CsvCell(Get(rows[i], rows[0][k].0), show) && ',' !in CsvCell(Get(rows[i], rows[0][k].0), show)
    ensures var lines := Text.Split(PrepCsv(rows, show).value, '\n');
      |lines| == |rows| + 1
      && Text.Split(lines[0], ',') == CsvNames(Keys(rows[0]))
      && forall i :: 0 <= i < |rows| ==> Text.Split(lines[i + 1], ',') == CsvCells(rows[i], Keys(rows[0]), show)
  {
    var fields := Keys(rows[0]);
    var names := CsvNames(fields);
    var lines := seq(|rows|, i requires 0 <= i < |rows| => Text.Join(CsvCells(rows[i], fields, show), ","));
    var all := [Text.Join(names, ",")] + lines;
    forall k | 0 <= k < |names|
      ensures '\n' !in names[k] && ',' !in names[k]
    {
      assert names[k] == "\"" + fields[k] + "\"";
    }
    Text.JoinAvoids(names, ",", '\n');
    forall i | 0 <= i < |rows|
      ensures '\n' !in lines[i]
      ensures Text.Split(lines[i], ',') == CsvCells(rows[i], fields, show)
    {
      Text.JoinAvoids(CsvCells(rows[i], fields, show), ",", '\n');
      Text.SplitJoin(CsvCells(rows[i], fields, show), ',');
    }
    Text.SplitJoin(all, '\n');
    Text.SplitJoin(names, ',');
  }

  // ---------------------------------------------------------------------------
  // csv of calc-experiment-results.js
  // ---------------------------------------------------------------------------

  /** The header line without its line break: the dotted keys separated by `;`. */
  const CalcHeader: string := Text.Join(Columns(), ";")

  /** The rendered values of a record, in column order. */
  function CalcCells(r: Record, show: Num -> string): (cells: seq<string>)
    ensures |cells| == 15
    ensures forall j :: 0 <= j < 15 ==> cells[j] == Render(Fields(r)[j], show)
  {
    seq(15, j requires 0 <= j < 15 => Render(Fields(r)[j], show))
  }

  /** One record's line without its line break: its fifteen values separated by `;`. */
  function CalcLine(r: Record, show: Num -> string): string
  {
    Text.Join(CalcCells(r, show), ";")
  }

  /** The lines of the records, in order. */
  function CalcLines(records: seq<Record>, show: Num -> string): (lines: seq<string>)
    ensures |lines| == |records|
  {
    seq(|records|, i requires 0 <= i < |records| => CalcLine(records[i], show))
  }

  /** The lines of all records but the last, then the last one's. */
  lemma CalcLinesSnoc(records: seq<Record>, show: Num -> string)
    requires records != []
    ensures CalcLines(records, show) ==
      CalcLines(records[..|records| - 1], show) + [CalcLine(records[|records| - 1], show)]
  {
    var init := records[..|records| - 1];
    assert forall i :: 0 <= i < |init| ==> CalcLines(records, show)[i] == CalcLines(init, show)[i];
  }

  /** A header line, then one line per record, each ended by a line break. */
  function Appended(header: string, records: seq<Record>, show: Num -> string): string
    decreases |records|
  {
    if records == [] then header + "\n"
    else Appended(header, records[..|records| - 1], show) + CalcLine(records[|records| - 1], show) + "\n"
  }

  /** The content after the first `records` have been appended. */
  function CalcContent(records: seq<Record>, show: Num -> string): string
  {
    Appended(CalcHeader, records, show)
  }

  /** The `+=` loop of `csv`. */
  method Csv(records: seq<Record>, show: Num -> string) returns (content: string)
    ensures content == CalcContent(records, show)
  {
    content := CalcHeader + "\n";
    for i := 0 to |records|
      invariant content == Appended(CalcHeader, records[..i], show)
    {
      assert records[..i + 1][..i] == records[..i];
      content := content + CalcLine(records[i], show) + "\n";
    }
    assert records[..|records|] == records;
  }

  /** No column name holds a line break or a `;`. */
  lemma ColumnsPlain()
    ensures forall j :: 0 <= j < 15 ==> '\n' !in Columns()[j] && ';' !in Columns()[j]
  {
    forall j | 0 <= j < 15
      ensures '\n' !in Columns()[j] && ';' !in Columns()[j]
    {
      Text.JoinAvoids(ColumnPaths[j], ".", '\n');
      Text.JoinAvoids(ColumnPaths[j], ".", ';');
    }
  }

  /** Appending a line and a line break to text that ends with a line break replaces
      the last, empty, piece of its split with the line and a new empty piece. */
  lemma SplitAppendLine(before: string, line: string)
    requires before != [] && before[|before| - 1] == '\n' && '\n' !in line
    ensures Text.Split(before + line + "\n", '\n') ==
      Text.Split(before, '\n')[..|Text.Split(before, '\n')| - 1] + [line, ""]
  {
    var stem := before[..|before| - 1];
    var prev := Text.Split(before, '\n');
    assert prev == Text.Split(stem, '\n') + [""] by {
      assert before == stem + ['\n'] + "";
      Text.SplitConcat(stem, '\n', "");
    }
    assert Text.Split(line + "\n", '\n') == [line, ""] by {
      Text.SplitNoSeparator(line, '\n');
      Text.SplitConcat(line, '\n', "");
      assert line + "\n" == line + ['\n'] + "";
    }
    assert Text.Split(before + line + "\n", '\n') == Text.Split(stem, '\n') + [line, ""] by {
      Text.SplitConcat(stem, '\n', line + "\n");
      assert before == stem + ['\n'];
      Text.ConcatAssoc(stem + ['\n'], line, "\n");
    }
    assert prev[..|prev| - 1] == Text.Split(stem, '\n');
  }

  /** The content built so far ends with a line break. */
  lemma AppendedEnds(header: string, records: seq<Record>, show: Num -> string)
    ensures var c := Appended(header, records, show); c != [] && c[|c| - 1] == '\n'
  {
  }

  /** Replacing the last, empty, piece by a line and a new empty piece. */
  lemma ReplaceLastPiece(pieces: seq<string>, header: string, earlier: seq<string>, line: string, lines: seq<string>)
    requires pieces == [header] + earlier + [""]
    requires lines == earlier + [line]
    ensures pieces[..|pieces| - 1] + [line, ""] == [header] + lines + [""]
  {
    assert pieces[..|pieces| - 1] == [header] + earlier;
  }

  /** A record line holds no line break when none of its values does. */
  lemma CalcLinePlain(r: Record, show: Num -> string)
    requires forall j :: 0 <= j < 15 ==> '\n' !in Render(Fields(r)[j], show)
    ensures '\n' !in CalcLine(r, show)
  {
    Text.JoinAvoids(CalcCells(r, show), ";", '\n');
  }

  /** One line more: appended with its line break to text split as a header, earlier
      lines and a last empty piece, it takes the place of that piece. */
  lemma AppendLine(before: string, header: string, earlier: seq<string>, line: string, lines: seq<string>)
    requires before != [] && before[|before| - 1] == '\n' && '\n' !in line
    requires Text.Split(before, '\n') == [header] + earlier + [""]
    requires lines == earlier + [line]
    ensures Text.Split(before + line + "\n", '\n') == [header] + lines + [""]
  {
    SplitAppendLine(before, line);
    ReplaceLastPiece(Text.Split(before, '\n'), header, earlier, line, lines);
  }

  /** Without line breaks in the header and the values, the text is the header line,
      then one line per record in order, each ended by a line break (so splitting leaves a
      last empty piece). */
  lemma {:induction false} AppendedLines(header: string, records: seq<Record>, show: Num -> string)
    requires '\n' !in header
    requires forall i, j :: 0 <= i < |records| && 0 <= j < 15 ==> '\n' !in Render(Fields(records[i])[j], show)
    ensures Text.Split(Appended(header, records, show), '\n') == [header] + CalcLines(records, show) + [""]
    decreases |records|
  {
    if records == [] {
      Text.SplitNoSeparator(header, '\n');
      Text.SplitConcat(header, '\n', "");
      assert header + "\n" == header + ['\n'] + "";
      assert CalcLines(records, show) == [];
    } else {
      var init := records[..|records| - 1];
      var r := records[|records| - 1];
      AppendedLines(header, init, show);
      AppendedEnds(header, init, show);
      CalcLinePlain(r, show);
      CalcLinesSnoc(records, show);
      AppendLine(Appended(header, init, show), header, CalcLines(init, show), CalcLine(r, show), CalcLines(records, show));
    }
  }

  /** Without line breaks in the values, the content is the header line, then one line per
      record in order, and a last empty piece after the final line break. */
  lemma CalcContentLines(records: seq<Record>, show: Num -> string)
    requires forall i, j :: 0 <= i < |records| && 0 <= j < 15 ==> '\n' !in Render(Fields(records[i])[j], show)
    ensures Text.Split(CalcContent(records, show), '\n') == [CalcHeader] + CalcLines(records, show) + [""]
  {
    ColumnsPlain();
    Text.JoinAvoids(Columns(), ";", '\n');
    AppendedLines(CalcHeader, records, show);
  }

  /** Without `;` in the values, every record line has fifteen fields, field `j` holding
      the value the sort sees under column `j`'s key. */
  lemma CalcLineFields(r: Record, show: Num -> string)
    requires forall j :: 0 <= j < 15 ==> ';' !in Render(Fields(r)[j], show)
    ensures |Text.Split(CalcLine(r, show), ';')| == 15
    ensures forall j :: 0 <= j < 15 ==>
      ResultsOrder.Key(r, Columns()[j]).Ok?
      && Text.Split(CalcLine(r, show), ';')[j] == Render(ResultsOrder.Key(r, Columns()[j]).value, show)
  {
    Text.SplitJoin(CalcCells(r, show), ';');
    FieldsAreColumns(r);
  }

  // ---------------------------------------------------------------------------
  // Main flows
  // ---------------------------------------------------------------------------

  /** Why a main flow stops before writing anything. */
  datatype Stop =
    | NoFileArgument          // `process.argv[2]` is missing, so `file.startsWith` throws
    | Unparsable(cause: Fault)
    | SortThrows(cause: Fault) // the comparator walked a sort key through `undefined`

  /** What process-experiment-results.js produces before it talks to the database: the
      sorted records, the statements it will run, and the text of the `.sql` file. */
  datatype SqlOutput = SqlOutput(records: seq<Record>, statements: seq<string>, sql: string)

  /** The records of the file named by the first argument, as `parser` reads them after
      the text has been trimmed; `read` stands for reading the file. */
  function Loaded(cwd: string, args: seq<string>, read: string -> string,
                  parseJson: string -> Option<seq<(string, Value)>>, parseFloat: string -> Num, show: Num -> string)
    : Result<seq<Record>, Fault>
    requires args != []
  {
    Parser(JsText.JsTrim(read(ScriptPaths.ResolveTwice(cwd, args[0]))), parseJson, parseFloat, show)
  }

  /** Sorting by column keys never throws: every one of them can be read on any record. */
  lemma ColumnKeysReadable(keys: seq<string>, records: seq<Record>)
    requires forall j :: 0 <= j < |keys| ==> keys[j] in Columns()
    ensures ResultsOrder.AllReadable(keys, records)
  {
    forall r, j | r in records && 0 <= j < |keys|
      ensures ResultsOrder.Key(r, keys[j]).Ok?
    {
      FieldsAreColumns(r);
      var c :| 0 <= c < 15 && Columns()[c] == keys[j];
    }
  }

  /** The records, sorted in place by the remaining arguments as keys, or the fault of the
      comparison that threw. */
  method SortedCopy(keys: seq<string>, records: seq<Record>) returns (sorted: seq<Record>, failure: Option<Fault>)
    ensures multiset(sorted) == multiset(records)
    ensures failure.None? ==> ResultsOrder.Sorted(keys, sorted)
    ensures ResultsOrder.AllReadable(keys, records) ==> failure.None?
    ensures |records| >= 2 && keys != [] && (forall r :: r in records ==> ResultsOrder.Key(r, keys[0]).Err?) ==>
      failure.Some?
  {
    var a := new Record[|records|](i requires 0 <= i < |records| => records[i]);
    assert a[..] == records;
    failure := ResultsOrder.SortRecords(keys, a);
    sorted := a[..];
  }

  /** The main flow of process-experiment-results.js up to the database: resolve the path,
      read and trim the file, parse it, sort the records by the keys given after the path,
      group them by a hundred, and build the statements and the `.sql` text. A sort key
      that walks through `undefined` stops it before the `.sql` file is touched. */
  method ProcessResults(cwd: string, args: seq<string>, read: string -> string,
                        parseJson: string -> Option<seq<(string, Value)>>, parseFloat: string -> Num,
                        show: Num -> string)
    returns (r: Result<SqlOutput, Stop>)
    ensures args == [] ==> r == Err(NoFileArgument)
    ensures args != [] && Loaded(cwd, args, read, parseJson, parseFloat, show).Err? ==>
      r == Err(Unparsable(Loaded(cwd, args, read, parseJson, parseFloat, show).error))
    ensures r.Ok? ==>
      var out := r.value;
      args != [] && Loaded(cwd, args, read, parseJson, parseFloat, show).Ok?
      && ResultsOrder.Sorted(args[1..], out.records)
      && multiset(out.records) == multiset(Loaded(cwd, args, read, parseJson, parseFloat, show).value)
      && out.statements == SqlStatements(out.records, show)
      && out.sql == SqlFile(out.statements)
    ensures (args != [] && Loaded(cwd, args, read, parseJson, parseFloat, show).Ok?
             && ResultsOrder.AllReadable(args[1..], Loaded(cwd, args, read, parseJson, parseFloat, show).value))
            ==> r.Ok?
    ensures (args != [] && Loaded(cwd, args, read, parseJson, parseFloat, show).Ok? && |args| >= 2
             && |Loaded(cwd, args, read, parseJson, parseFloat, show).value| >= 2
             && forall x :: x in Loaded(cwd, args, read, parseJson, parseFloat, show).value ==> ResultsOrder.Key(x, args[1]).Err?)
            ==> r.Err? && r.error.SortThrows?
  {
    if args == [] {
      return Err(NoFileArgument);
    }
    var loaded := Loaded(cwd, args, read, parseJson, parseFloat, show);
    if loaded.Err? {
      return Err(Unparsable(loaded.error));
    }
    var sorted, failure := SortedCopy(args[1..], loaded.value);
    if failure.Some? {
      return Err(SortThrows(failure.value));
    }
    var groups := ChunkRecords(sorted);
    var stmts := seq(|groups|, c requires 0 <= c < |groups| => Statement(groups[c], show));
    r := Ok(SqlOutput(sorted, stmts, SqlFile(stmts)));
  }

  /** The main flow of calc-experiment-results.js: the same reading, parsing and sorting,
      then the `;`-separated CSV text of the sorted records; a sort key that walks through
      `undefined` stops it before the CSV is written. */
  method CalcResults(cwd: string, args: seq<string>, read: string -> string,
                     parseJson: string -> Option<seq<(string, Value)>>, parseFloat: string -> Num,
                     show: Num -> string)
    returns (r: Result<(seq<Record>, string), Stop>)
    ensures args == [] ==> r == Err(NoFileArgument)
    ensures args != [] && Loaded(cwd, args, read, parseJson, parseFloat, show).Err? ==>
      r == Err(Unparsable(Loaded(cwd, args, read, parseJson, parseFloat, show).error))
    ensures r.Ok? ==>
      args != [] && Loaded(cwd, args, read, parseJson, parseFloat, show).Ok?
      && ResultsOrder.Sorted(args[1..], r.value.0)
      && multiset(r.value.0) == multiset(Loaded(cwd, args, read, parseJson, parseFloat, show).value)
      && r.value.1 == CalcContent(r.value.0, show)
    ensures (args != [] && Loaded(cwd, args, read, parseJson, parseFloat, show).Ok?
             && ResultsOrder.AllReadable(args[1..], Loaded(cwd, args, read, parseJson, parseFloat, show).value))
            ==> r.Ok?
    ensures (args != [] && Loaded(cwd, args, read, parseJson, parseFloat, show).Ok? && |args| >= 2
             && |Loaded(cwd, args, read, parseJson, parseFloat, show).value| >= 2
             && forall x :: x in Loaded(cwd, args, read, parseJson, parseFloat, show).value ==> ResultsOrder.Key(x, args[1]).Err?)
            ==> r.Err? && r.error.SortThrows?
  {
    if args == [] {
      return Err(NoFileArgument);
    }
    var loaded := Loaded(cwd, args, read, parseJson, parseFloat, show);
    if loaded.Err? {
      return Err(Unparsable(loaded.error));
    }
    var sorted, failure := SortedCopy(args[1..], loaded.value);
    if failure.Some? {
      return Err(SortThrows(failure.value));
    }
    var content := Csv(sorted, show);
    r := Ok((sorted, content));
  }
}
