/**
 * The instance file reader. Line 0 is a header (tour count, POI count, budget), line 1
 * the per-type caps, line 2 the pattern lengths, the next `TourCount` lines one pattern
 * each, and every later line one point of interest. A failing step raises an exception,
 * modelled as `Err` with the exception's kind; it ends the whole read.
 */
module FileParser {
  import opened Wrappers
  import opened Text

  const Int32Min: int := -0x8000_0000
  const Int32Max: int := 0x7FFF_FFFF

  /** The exception a step of the reader raises. */
  datatype Fault =
    | Format              // FormatException from `int.Parse` or `float.Parse`
    | Overflow            // OverflowException from `int.Parse`
    | IndexOutOfRange     // an array index past the end
    | ArgumentOutOfRange  // a `List` index past the end, or a negative `List` capacity
    | NullReference       // a member access on a list that was never created

  datatype Poi = Poi(id: int, x: real, y: real, duration: real, score: real,
                     open: real, close: real, cost: real, poiType: int)

  datatype Header = Header(tourCount: int, poiCount: int, budget: int)

  /** The object being filled; a list that has not been created yet is `None`. */
  datatype ProblemInput = ProblemInput(
    tourCount: int, poiCount: int, budget: int,
    maxPoisOfType: Option<seq<int>>, patternLengths: Option<seq<int>>,
    patterns: Option<seq<seq<int>>>, pois: Option<seq<Poi>>)

  /** `new ProblemInput()`, before any line is read. */
  const Fresh := ProblemInput(0, 0, 0, None, None, None, None)

  // ---------------------------------------------------------------- tokens and numbers

  /** `raw.Trim().Split(' ')`. */
  function Tokens(raw: string): (t: seq<string>)
    ensures |t| >= 1
  {
    Split(Trim(raw, IsCsWhiteSpace), ' ')
  }

  /** The white space the number parsers skip around a number. */
  predicate IsNumberWhite(ch: char)
  {
    ch == ' ' || '\t' <= ch <= '\r'
  }

  predicate AllDigits(s: string)
  {
    forall k :: 0 <= k < |s| ==> IsDigit(s[k])
  }

  /** The text after an optional leading sign. */
  function Unsigned(body: string): string
  {
    if body != [] && (body[0] == '-' || body[0] == '+') then body[1..] else body
  }

  /** `int.Parse` with the default integer style: optional white space around an optional
      sign and a non-empty run of decimal digits whose value fits in 32 bits. */
  function ParseInt32(s: string): (r: Result<int, Fault>)
    ensures r.Ok? ==> Int32Min <= r.value <= Int32Max
    ensures r.Err? ==> r.error == Format || r.error == Overflow
  {
    var body := Trim(s, IsNumberWhite);
    var digits := Unsigned(body);
    if digits == [] || !AllDigits(digits) then Err(Format)
    else
      var v := if body[0] == '-' then -(DigitsValue(digits) as int) else DigitsValue(digits);
      if v < Int32Min || Int32Max < v then Err(Overflow) else Ok(v)
  }

  /** Reading back the decimal rendering of an integer gives the integer when it fits in
      32 bits, and an overflow otherwise. */
  lemma ParseInt32RoundTrip(n: int)
    ensures ParseInt32(IntToString(n)) == if Int32Min <= n <= Int32Max then Ok(n) else Err(Overflow)
  {
    var s := IntToString(n);
    IntToStringShape(n);
    TrimUnchanged(s, IsNumberWhite);
    if n < 0 {
      assert Unsigned(s) == NatToString(-n);
      NatToStringRoundTrip(-n);
    } else {
      NatToStringRoundTrip(n);
    }
  }

  function Pow10(k: nat): (p: nat)
    ensures p >= 1
  {
    if k == 0 then 1 else 10 * Pow10(k - 1)
  }

  /** The value of unsigned decimal notation: digits with at most one decimal point and at
      least one digit in all. */
  function DecimalValue(text: string): (r: Result<real, Fault>)
    ensures r.Ok? ==> text != [] && 0.0 <= r.value
    ensures r.Err? ==> r.error == Format
  {
    var parts := Split(text, '.');
    var whole := parts[0];
    var fraction := if |parts| >= 2 then parts[1] else "";
    if |parts| > 2 || whole + fraction == [] || !AllDigits(whole) || !AllDigits(fraction) then Err(Format)
    else
      Ok(DigitsValue(whole) as real + DigitsValue(fraction) as real / Pow10(|fraction|) as real)
  }

  /** Digits without a point denote the integer they spell. */
  lemma DecimalOfDigits(digits: string)
    requires digits != [] && AllDigits(digits)
    ensures DecimalValue(digits) == Ok(DigitsValue(digits) as real)
  {
    assert '.' !in digits by {
      assert forall k :: 0 <= k < |digits| ==> IsDigit(digits[k]);
    }
    SplitNoSeparator(digits, '.');
    assert DigitsValue("") == 0 && Pow10(0) == 1;
  }

  /** `float.Parse` on plain decimal notation: optional white space around an optional
      sign and unsigned decimal notation. */
  function ParseFloat(s: string): (r: Result<real, Fault>)
    ensures r.Err? ==> r.error == Format
  {
    var body := Trim(s, IsNumberWhite);
    match DecimalValue(Unsigned(body))
    case Err(e) => Err(e)
    case Ok(v) => Ok(if body[0] == '-' then -v else v)
  }

  /** A rendered integer reads back as that number. */
  lemma ParseFloatOfInt(n: int)
    ensures ParseFloat(IntToString(n)) == Ok(n as real)
  {
    var s := IntToString(n);
    IntToStringShape(n);
    TrimUnchanged(s, IsNumberWhite);
    var m: nat := if n < 0 then -n else n;
    var digits := NatToString(m);
    assert Unsigned(s) == digits;
    DecimalOfDigits(digits);
    NatToStringRoundTrip(m);
    assert DecimalValue(Unsigned(Trim(s, IsNumberWhite))) == Ok(m as real);
  }

  /** `Select(parse).ToList()`: every token parsed in order; the first failure is raised. */
  function ParseAll<T>(tokens: seq<string>, parse: string -> Result<T, Fault>): (r: Result<seq<T>, Fault>)
    ensures r.Ok? ==> |r.value| == |tokens|
  {
    if tokens == [] then Ok([])
    else
      match parse(tokens[0])
      case Err(e) => Err(e)
      case Ok(v) =>
        var rest := ParseAll(tokens[1..], parse);
        if rest.Err? then Err(rest.error) else Ok([v] + rest.value)
  }

  /** A successful list holds each token's value at the token's position; a failed one
      carries the exception of the first token that fails. */
  lemma {:induction false} ParseAllMeaning<T>(tokens: seq<string>, parse: string -> Result<T, Fault>)
    ensures var r := ParseAll(tokens, parse);
            r.Ok? ==> forall k :: 0 <= k < |tokens| ==> parse(tokens[k]) == Ok(r.value[k])
    ensures var r := ParseAll(tokens, parse);
            r.Err? ==> exists k :: 0 <= k < |tokens| && parse(tokens[k]) == Err(r.error)
                                   && forall m :: 0 <= m < k ==> parse(tokens[m]).Ok?
  {
    if tokens != [] && parse(tokens[0]).Ok? {
      var rest := tokens[1..];
      ParseAllMeaning(rest, parse);
      assert forall k :: 0 < k < |tokens| ==> tokens[k] == rest[k - 1];
      var r := ParseAll(rest, parse);
      if r.Err? {
        var k :| 0 <= k < |rest| && parse(rest[k]) == Err(r.error)
                 && forall m :: 0 <= m < k ==> parse(rest[m]).Ok?;
        assert parse(tokens[k + 1]) == Err(r.error);
      }
    }
  }

  /** Only failing tokens fail the list: when every token parses, so does the list. */
  lemma {:induction false} ParseAllSucceeds<T>(tokens: seq<string>, parse: string -> Result<T, Fault>)
    requires forall k :: 0 <= k < |tokens| ==> parse(tokens[k]).Ok?
    ensures ParseAll(tokens, parse).Ok?
  {
    if tokens != [] {
      assert forall k :: 0 <= k < |tokens[1..]| ==> tokens[1..][k] == tokens[k + 1];
      ParseAllSucceeds(tokens[1..], parse);
    }
  }

  /** LINQ `Take(n)`: the first `n` items, none for a negative `n`. */
  function Take<T>(xs: seq<T>, n: int): (r: seq<T>)
    ensures |r| == if n <= 0 then 0 else if n < |xs| then n else |xs|
    ensures r <= xs
  {
    if n <= 0 then [] else if n < |xs| then xs[..n] else xs
  }

  /** LINQ `Skip(n)` for `n >= 0`. */
  function Skip<T>(xs: seq<T>, n: nat): (r: seq<T>)
    ensures |r| == if n < |xs| then |xs| - n else 0
    ensures forall k :: 0 <= k < |r| ==> r[k] == xs[n + k]
  {
    if n < |xs| then xs[n..] else []
  }

  /** `List.FindIndex(x => x == 1)`: the first position holding 1, or -1. */
  function FindOne(xs: seq<real>): (k: int)
    ensures -1 <= k < |xs|
    ensures k == -1 <==> forall m :: 0 <= m < |xs| ==> xs[m] != 1.0
    ensures k >= 0 ==> xs[k] == 1.0 && forall m :: 0 <= m < k ==> xs[m] != 1.0
  {
    if xs == [] then -1
    else if xs[0] == 1.0 then 0
    else
      var k := FindOne(xs[1..]);
      if k == -1 then -1 else k + 1
  }

  /** The `(int)` cast of a number: truncation toward zero. */
  function Truncate(x: real): (n: int)
    ensures 0.0 <= x ==> n as real <= x < n as real + 1.0
    ensures x < 0.0 ==> n as real - 1.0 < x <= n as real
  {
    if 0.0 <= x then x.Floor else -((-x).Floor)
  }

  // ---------------------------------------------------------------- line parsers

  /** `ParseTourCount`: the first three tokens as integers, each parsed before the next
      token is looked up. */
  function ParseTourCount(raw: string): (r: Result<Header, Fault>)
    ensures var items := Tokens(raw);
            r.Ok? <==> |items| >= 3 && ParseInt32(items[0]).Ok? && ParseInt32(items[1]).Ok?
                       && ParseInt32(items[2]).Ok?
    ensures var items := Tokens(raw);
            r.Ok? ==> r.value == Header(ParseInt32(items[0]).value, ParseInt32(items[1]).value,
                                        ParseInt32(items[2]).value)
  {
    var items := Tokens(raw);
    match ParseInt32(items[0])
    case Err(e) => Err(e)
    case Ok(tourCount) =>
      if |items| < 2 then Err(IndexOutOfRange)
      else match ParseInt32(items[1])
        case Err(e) => Err(e)
        case Ok(poiCount) =>
          if |items| < 3 then Err(IndexOutOfRange)
          else match ParseInt32(items[2])
            case Err(e) => Err(e)
            case Ok(budget) => Ok(Header(tourCount, poiCount, budget))
  }

  /** `ParseMaxPoisOfType` and `ParsePatternLength`, which are the same pipeline: one
      integer per token. */
  function ParseIntList(raw: string): (r: Result<seq<int>, Fault>)
    ensures r.Ok? ==> |r.value| == |Tokens(raw)|
                      && forall k :: 0 <= k < |Tokens(raw)| ==> ParseInt32(Tokens(raw)[k]) == Ok(r.value[k])
    ensures r.Err? ==> exists k :: 0 <= k < |Tokens(raw)| && ParseInt32(Tokens(raw)[k]) == Err(r.error)
  {
    ParseAllMeaning(Tokens(raw), ParseInt32);
    ParseAll(Tokens(raw), ParseInt32)
  }

  /** `ParsePattern`: only the first `length` tokens are read, so later tokens may be
      anything. */
  function ParsePattern(raw: string, length: int): (r: Result<seq<int>, Fault>)
    ensures r.Ok? ==> |r.value| == |Take(Tokens(raw), length)|
                      && forall k :: 0 <= k < |r.value| ==> ParseInt32(Take(Tokens(raw), length)[k]) == Ok(r.value[k])
    ensures r.Err? ==> exists k :: 0 <= k < |Take(Tokens(raw), length)| && ParseInt32(Take(Tokens(raw), length)[k]) == Err(r.error)
  {
    ParseAllMeaning(Take(Tokens(raw), length), ParseInt32);
    ParseAll(Take(Tokens(raw), length), ParseInt32)
  }

  /** Tokens past the pattern length are never parsed, so they cannot fail the line. */
  lemma ParsePatternIgnoresTail(raw: string, length: int)
    requires forall k :: 0 <= k < |Tokens(raw)| && k < length ==> ParseInt32(Tokens(raw)[k]).Ok?
    ensures ParsePattern(raw, length).Ok?
    ensures |ParsePattern(raw, length).value| == |Take(Tokens(raw), length)|
  {
    var taken := Take(Tokens(raw), length);
    assert forall k :: 0 <= k < |taken| ==> taken[k] == Tokens(raw)[k];
    ParseAllSucceeds(taken, ParseInt32);
  }

  /** The fields of a POI line once every token has been read as a number: fields 0 to 6
      must exist; the cost is field 7 when there is one; the type is the offset, from
      field 8 on, of the first field equal to 1, or -1. */
  function PoiOf(vals: seq<real>): (r: Result<Poi, Fault>)
    ensures r.Ok? <==> |vals| >= 7
    ensures r.Err? ==> r.error == ArgumentOutOfRange
    ensures r.Ok? ==> r.value.id == Truncate(vals[0]) && r.value.close == vals[6]
    ensures r.Ok? ==> r.value.cost == if |vals| > 7 then vals[7] else 0.0
    ensures r.Ok? ==> (r.value.poiType == -1 <==> forall k :: 8 <= k < |vals| ==> vals[k] != 1.0)
    ensures r.Ok? && r.value.poiType >= 0 ==>
              8 + r.value.poiType < |vals| && vals[8 + r.value.poiType] == 1.0
              && forall k :: 8 <= k < 8 + r.value.poiType ==> vals[k] != 1.0
  {
    var index := FindOne(Skip(vals, 8));
    if |vals| < 7 then Err(ArgumentOutOfRange)
    else
      assert forall k :: 8 <= k < |vals| ==> vals[k] == Skip(vals, 8)[k - 8];
      Ok(Poi(Truncate(vals[0]), vals[1], vals[2], vals[3], vals[4], vals[5], vals[6],
             if |vals| > 7 then vals[7] else 0.0, index))
  }

  /** `ParsePoi`: every token is read as a number before any field is looked at, so a bad
      token anywhere fails the line with a format error. */
  function ParsePoi(raw: string): (r: Result<Poi, Fault>)
    ensures var vals := ParseAll(Tokens(raw), ParseFloat);
            (vals.Err? ==> r == Err(Format)) && (vals.Ok? ==> r == PoiOf(vals.value))
  {
    ParseAllMeaning(Tokens(raw), ParseFloat);
    match ParseAll(Tokens(raw), ParseFloat)
    case Err(e) => Err(e)
    case Ok(vals) => PoiOf(vals)
  }

  // ---------------------------------------------------------------- the line dispatch

  /** The parsers the dispatch hands each kind of line to. The facts about the dispatch
      below hold whatever these parsers do; `Reader` is the reader's own set. */
  datatype LineParsers = LineParsers(
    header: string -> Result<Header, Fault>,
    ints: string -> Result<seq<int>, Fault>,
    pattern: (string, int) -> Result<seq<int>, Fault>,
    poi: string -> Result<Poi, Fault>)

  const Reader := LineParsers(ParseTourCount, ParseIntList, ParsePattern, ParsePoi)

  /** What line number `line`, holding `text`, does to the object being filled. */
  function Step(p: LineParsers, input: ProblemInput, line: nat, text: string): Result<ProblemInput, Fault>
  {
    if line == 0 then
      match p.header(text)
      case Err(e) => Err(e)
      case Ok(h) =>
        // `new List<…>(capacity)` rejects a negative capacity
        if h.tourCount < 0 || h.poiCount < 0 then Err(ArgumentOutOfRange)
        else Ok(input.(tourCount := h.tourCount, poiCount := h.poiCount, budget := h.budget,
                       patterns := Some([]), pois := Some([])))
    else if line == 1 then
      match p.ints(text)
      case Err(e) => Err(e)
      case Ok(caps) => Ok(input.(maxPoisOfType := Some(caps)))
    else if line == 2 then
      match p.ints(text)
      case Err(e) => Err(e)
      case Ok(lengths) => Ok(input.(patternLengths := Some(lengths)))
    else if line < 3 + input.tourCount then
      match input.patternLengths
      case None => Err(NullReference)
      case Some(lengths) =>
        if |lengths| <= line - 3 then Err(ArgumentOutOfRange)
        else match p.pattern(text, lengths[line - 3])
          case Err(e) => Err(e)
          case Ok(pattern) =>
            match input.patterns
            case None => Err(NullReference)
            case Some(ps) => Ok(input.(patterns := Some(ps + [pattern])))
    else
      match p.poi(text)
      case Err(e) => Err(e)
      case Ok(poi) =>
        match input.pois
        case None => Err(NullReference)
        case Some(qs) => Ok(input.(pois := Some(qs + [poi])))
  }

  /** The outcome of reading `lines` one after the other from a fresh object. */
  function Parsed(p: LineParsers, lines: seq<string>): Result<ProblemInput, Fault>
  {
    if lines == [] then Ok(Fresh)
    else
      match Parsed(p, lines[..|lines| - 1])
      case Err(e) => Err(e)
      case Ok(input) => Step(p, input, |lines| - 1, lines[|lines| - 1])
  }

  /** `ParseInput` over the lines of the file: a loop with a line counter that hands each
      line to `ReadLine`; the first exception ends the read. */
  method ParseInput(lines: seq<string>) returns (r: Result<ProblemInput, Fault>)
    ensures r == Parsed(Reader, lines)
  {
    var input := Fresh;
    var line := 0;
    while line < |lines|
      invariant 0 <= line <= |lines|
      invariant Parsed(Reader, lines[..line]) == Ok(input)
    {
      assert lines[..line + 1][..line] == lines[..line];
      var next := ReadLine(input, line, lines[line]);
      if next.Err? {
        ErrorEndsRead(Reader, lines, line + 1);
        return next;
      }
      input := next.value;
      line := line + 1;
    }
    assert lines[..line] == lines;
    r := Ok(input);
  }

  /** The body of the read loop: the line number decides which parser gets the line and
      which field or list of the object it fills. */
  method ReadLine(input: ProblemInput, line: nat, text: string) returns (next: Result<ProblemInput, Fault>)
    ensures next == Step(Reader, input, line, text)
  {
    if line == 0 {
      var vals := ParseTourCount(text);
      if vals.Err? {
        next := Err(vals.error);
      } else if vals.value.tourCount < 0 || vals.value.poiCount < 0 {
        next := Err(ArgumentOutOfRange);
      } else {
        next := Ok(input.(tourCount := vals.value.tourCount, poiCount := vals.value.poiCount,
                          budget := vals.value.budget, patterns := Some([]), pois := Some([])));
      }
    } else if line == 1 {
      var caps := ParseIntList(text);
      next := if caps.Err? then Err(caps.error) else Ok(input.(maxPoisOfType := Some(caps.value)));
    } else if line == 2 {
      var lengths := ParseIntList(text);
      next := if lengths.Err? then Err(lengths.error) else Ok(input.(patternLengths := Some(lengths.value)));
    } else if line < 3 + input.tourCount {
      if input.patternLengths.None? {
        next := Err(NullReference);
      } else if |input.patternLengths.value| <= line - 3 {
        next := Err(ArgumentOutOfRange);
      } else {
        var pattern := ParsePattern(text, input.patternLengths.value[line - 3]);
        if pattern.Err? {
          next := Err(pattern.error);
        } else if input.patterns.None? {
          next := Err(NullReference);
        } else {
          next := Ok(input.(patterns := Some(input.patterns.value + [pattern.value])));
        }
      }
    } else {
      var poi := ParsePoi(text);
      if poi.Err? {
        next := Err(poi.error);
      } else if input.pois.None? {
        next := Err(NullReference);
      } else {
        next := Ok(input.(pois := Some(input.pois.value + [poi.value])));
      }
    }
  }

  /** Once a line has raised, the read is over with that exception. */
  lemma {:induction false} ErrorEndsRead(p: LineParsers, lines: seq<string>, k: nat)
    requires k <= |lines| && Parsed(p, lines[..k]).Err?
    ensures Parsed(p, lines) == Parsed(p, lines[..k])
    decreases |lines| - k
  {
    if k < |lines| {
      assert lines[..k + 1][..k] == lines[..k];
      ErrorEndsRead(p, lines, k + 1);
    } else {
      assert lines[..k] == lines;
    }
  }

  // ---------------------------------------------------------------- what a read yields

  /** Line 0 supplied the counts and the budget, both counts non-negative. */
  ghost predicate HeaderFrom(p: LineParsers, lines: seq<string>, input: ProblemInput)
  {
    if lines == [] then input == Fresh
    else p.header(lines[0]) == Ok(Header(input.tourCount, input.poiCount, input.budget))
         && input.tourCount >= 0 && input.poiCount >= 0
  }

  /** Line 1 supplied the caps and line 2 the pattern lengths; absent lines leave them unset. */
  ghost predicate ListsFrom(p: LineParsers, lines: seq<string>, input: ProblemInput)
  {
    (if |lines| >= 2 then input.maxPoisOfType.Some? && p.ints(lines[1]) == Ok(input.maxPoisOfType.value)
     else input.maxPoisOfType.None?)
    && (if |lines| >= 3 then input.patternLengths.Some? && p.ints(lines[2]) == Ok(input.patternLengths.value)
        else input.patternLengths.None?)
  }

  /** The number of pattern lines among the first `n` lines when there are `tourCount` tours. */
  function PatternLines(n: nat, tourCount: nat): (m: nat)
    ensures m <= tourCount && (n >= 3 ==> m <= n - 3)
  {
    if n <= 3 then 0 else if n - 3 < tourCount then n - 3 else tourCount
  }

  /** Lines 3 … 2+TourCount are the patterns, the i-th read with the i-th length; every
      later line is one POI, in file order. */
  ghost predicate BodyFrom(p: LineParsers, lines: seq<string>, input: ProblemInput)
    requires input.tourCount >= 0
  {
    var np := PatternLines(|lines|, input.tourCount);
    input.patterns.Some? && input.pois.Some?
    && |input.patterns.value| == np
    && (np > 0 ==> input.patternLengths.Some? && |input.patternLengths.value| >= np)
    && (forall i :: 0 <= i < np ==>
          p.pattern(lines[3 + i], input.patternLengths.value[i]) == Ok(input.patterns.value[i]))
    && |input.pois.value| == (if |lines| > 3 + input.tourCount then |lines| - 3 - input.tourCount else 0)
    && (forall k :: 0 <= k < |input.pois.value| ==>
          p.poi(lines[3 + input.tourCount + k]) == Ok(input.pois.value[k]))
  }

  /** A successful read is described line by line: the header, the caps, the lengths, the
      patterns in order and one POI per remaining line in order. */
  lemma {:induction false} ParsedDescribes(p: LineParsers, lines: seq<string>)
    requires Parsed(p, lines).Ok?
    ensures HeaderFrom(p, lines, Parsed(p, lines).value)
    ensures ListsFrom(p, lines, Parsed(p, lines).value)
    ensures lines != [] ==> BodyFrom(p, lines, Parsed(p, lines).value)
  {
    if lines != [] {
      var n := |lines| - 1;
      var before := lines[..n];
      assert Parsed(p, before).Ok?;
      ParsedDescribes(p, before);
      var prev, next := Parsed(p, before).value, Parsed(p, lines).value;
      assert forall i :: 0 <= i < n ==> before[i] == lines[i];
      if n == 0 {
        assert next.patterns == Some([]) && next.pois == Some([]);
      } else if n < 3 {
        assert BodyFrom(p, before, prev);
      } else if n < 3 + prev.tourCount {
        PatternStep(p, lines, prev, next);
      } else {
        PoiStep(p, lines, prev, next);
      }
    }
  }

  lemma PatternStep(p: LineParsers, lines: seq<string>, prev: ProblemInput, next: ProblemInput)
    requires |lines| >= 4
    requires prev.tourCount >= 0 && BodyFrom(p, lines[..|lines| - 1], prev)
    requires |lines| - 1 < 3 + prev.tourCount
    requires Step(p, prev, |lines| - 1, lines[|lines| - 1]) == Ok(next)
    requires forall i :: 0 <= i < |lines| - 1 ==> lines[..|lines| - 1][i] == lines[i]
    ensures next.tourCount == prev.tourCount && next.patternLengths == prev.patternLengths
    ensures BodyFrom(p, lines, next)
  {
    var n := |lines| - 1;
    assert PatternLines(|lines|, prev.tourCount) == PatternLines(n, prev.tourCount) + 1;
  }

  lemma PoiStep(p: LineParsers, lines: seq<string>, prev: ProblemInput, next: ProblemInput)
    requires |lines| >= 4
    requires prev.tourCount >= 0 && BodyFrom(p, lines[..|lines| - 1], prev)
    requires 3 + prev.tourCount <= |lines| - 1
    requires Step(p, prev, |lines| - 1, lines[|lines| - 1]) == Ok(next)
    requires forall i :: 0 <= i < |lines| - 1 ==> lines[..|lines| - 1][i] == lines[i]
    ensures next.tourCount == prev.tourCount && next.patterns == prev.patterns
    ensures next.patternLengths == prev.patternLengths
    ensures BodyFrom(p, lines, next)
  {
    var n := |lines| - 1;
    assert PatternLines(|lines|, prev.tourCount) == PatternLines(n, prev.tourCount);
  }

  /** A header with a negative tour count makes the read fail, whatever follows. */
  lemma NegativeTourCountFails(p: LineParsers, lines: seq<string>)
    requires lines != [] && p.header(lines[0]).Ok? && p.header(lines[0]).value.tourCount < 0
    ensures Parsed(p, lines) == Err(ArgumentOutOfRange)
  {
    assert lines[..1] == [lines[0]];
    assert [lines[0]][..0] == [];
    ErrorEndsRead(p, lines, 1);
  }
}
