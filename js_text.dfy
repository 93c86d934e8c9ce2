/**
 * The JavaScript string and array built-ins the Node.js scripts rely on, with the
 * semantics ECMAScript gives them: white space as `trim()` and `\s` see it, `replace`
 * with a string pattern (first occurrence only), `filter`, and `parseInt` without a
 * radix (leading white space, a sign, an optional `0x` prefix, then the longest run of
 * digits; `NaN` when there is none).
 */
module JsText {
  import opened Wrappers
  import Text

  /** WhiteSpace and LineTerminator code points of ECMAScript. */
  predicate IsJsWhiteSpace(ch: char)
  {
    ch == ' ' || '\t' <= ch <= '\r' || ch == '\U{00A0}' || ch == '\U{1680}'
    || '\U{2000}' <= ch <= '\U{200A}' || ch == '\U{2028}' || ch == '\U{2029}' || ch == '\U{202F}'
    || ch == '\U{205F}' || ch == '\U{3000}' || ch == '\U{FEFF}'
  }

  /** The characters a regular-expression `.` does not match. */
  predicate IsLineTerminator(ch: char)
  {
    ch == '\n' || ch == '\r' || ch == '\U{2028}' || ch == '\U{2029}'
  }

  /** `s.trim()`. */
  function JsTrim(s: string): (r: string)
    ensures |r| <= |s|
  {
    Text.Trim(s, IsJsWhiteSpace)
  }

  /** A string is truthy exactly when it is not empty (`filter(s => s)`). */
  function Truthy(s: string): bool
  {
    s != ""
  }

  /** `xs.filter(keep)`: the elements `keep` accepts, in their order. */
  function Filter<T(!new)>(xs: seq<T>, keep: T -> bool): (r: seq<T>)
    ensures |r| <= |xs|
  {
    if xs == [] then []
    else if keep(xs[0]) then [xs[0]] + Filter(xs[1..], keep)
    else Filter(xs[1..], keep)
  }

  /** What is kept is exactly the elements of `xs` that `keep` accepts. */
  lemma {:induction false} FilterMeaning<T(!new)>(xs: seq<T>, keep: T -> bool)
    ensures forall k :: 0 <= k < |Filter(xs, keep)| ==> keep(Filter(xs, keep)[k])
    ensures forall x :: x in Filter(xs, keep) <==> x in xs && keep(x)
  {
    if xs != [] {
      FilterMeaning(xs[1..], keep);
      assert forall x :: x in xs <==> x == xs[0] || x in xs[1..];
    }
  }

  /** Filtering keeps order: it distributes over concatenation. */
  lemma {:induction false} FilterConcat<T(!new)>(a: seq<T>, b: seq<T>, keep: T -> bool)
    ensures Filter(a + b, keep) == Filter(a, keep) + Filter(b, keep)
  {
    if a != [] {
      assert (a + b)[1..] == a[1..] + b;
      FilterConcat(a[1..], b, keep);
    } else {
      assert a + b == b;
    }
  }

  /** Filtering one element more of a sequence appends it exactly when it is kept. */
  lemma FilterPrefixStep<T(!new)>(xs: seq<T>, j: nat, keep: T -> bool)
    requires j < |xs|
    ensures Filter(xs[..j + 1], keep) == Filter(xs[..j], keep) + (if keep(xs[j]) then [xs[j]] else [])
  {
    assert xs[..j + 1] == xs[..j] + [xs[j]];
    FilterConcat(xs[..j], [xs[j]], keep);
    assert [xs[j]][1..] == [];
  }

  /** `pat` occurs in `s` starting at index `j`. */
  predicate OccursAt(s: string, pat: string, j: nat)
  {
    j + |pat| <= |s| && s[j..j + |pat|] == pat
  }

  /** Where `pat` first occurs in `s`, or `|s|` when it does not occur. */
  function FirstOccurrence(s: string, pat: string): (i: nat)
    requires pat != []
    ensures i <= |s|
    ensures i < |s| ==> OccursAt(s, pat, i)
    ensures forall j :: 0 <= j < i ==> !OccursAt(s, pat, j)
  {
    if |s| < |pat| then |s|
    else if pat <= s then 0
    else
      var i := 1 + FirstOccurrence(s[1..], pat);
      OccursShift(s, pat);
      i
  }

  /** An occurrence after the first character is one in the rest of the text. */
  lemma OccursShift(s: string, pat: string)
    requires s != []
    ensures forall j :: 1 <= j <= |s| ==> (OccursAt(s, pat, j) <==> OccursAt(s[1..], pat, j - 1))
  {
    forall j | 1 <= j <= |s|
      ensures OccursAt(s, pat, j) <==> OccursAt(s[1..], pat, j - 1)
    {
      if j + |pat| <= |s| {
        var a, b := s[j..j + |pat|], s[1..][j - 1..j - 1 + |pat|];
        forall k | 0 <= k < |pat|
          ensures a[k] == b[k]
        {
          assert a[k] == s[j + k] && b[k] == s[1..][j - 1 + k];
        }
        assert a == b;
      }
    }
  }

  /** `s.replace(pat, with)` with a string pattern: only the first occurrence is replaced. */
  function ReplaceFirst(s: string, pat: string, with: string): (r: string)
    requires pat != []
  {
    var i := FirstOccurrence(s, pat);
    if i == |s| then s else s[..i] + with + s[i + |pat|..]
  }

  /** A pattern the text starts with is the occurrence `replace` removes. */
  lemma ReplaceFirstAtStart(s: string, pat: string, with: string)
    requires pat != [] && pat <= s
    ensures ReplaceFirst(s, pat, with) == with + s[|pat|..]
  {
  }

  /** A text without the pattern is left alone. */
  lemma ReplaceFirstAbsent(s: string, pat: string, with: string)
    requires pat != []
    requires forall j: nat :: !OccursAt(s, pat, j)
    ensures ReplaceFirst(s, pat, with) == s
  {
  }

  /** The value of `ch` as a digit in base `radix` (10 or 16), if it is one. */
  function RadixDigit(ch: char, radix: nat): (d: Option<nat>)
    ensures d.Some? ==> d.value < radix
  {
    var v: int :=
      if '0' <= ch <= '9' then (ch - '0') as int
      else if 'a' <= ch <= 'z' then (ch - 'a') as int + 10
      else if 'A' <= ch <= 'Z' then (ch - 'A') as int + 10
      else radix;
    if v < radix then Some(v) else None
  }

  /** The longest prefix of `s` made of digits in base `radix`. */
  function DigitRun(s: string, radix: nat): (r: string)
    ensures r <= s
    ensures forall k :: 0 <= k < |r| ==> RadixDigit(r[k], radix).Some?
    ensures |r| < |s| ==> RadixDigit(s[|r|], radix).None?
  {
    if s != [] && RadixDigit(s[0], radix).Some? then [s[0]] + DigitRun(s[1..], radix) else []
  }

  /** The number a run of digits in base `radix` denotes. */
  function RunValue(s: string, radix: nat): nat
    requires forall k :: 0 <= k < |s| ==> RadixDigit(s[k], radix).Some?
  {
    if s == [] then 0
    else
      var high: nat := RunValue(s[..|s| - 1], radix);
      var low: nat := RadixDigit(s[|s| - 1], radix).value;
      var shifted: nat := high * radix;
      shifted + low
  }

  /** `parseInt(s)`; `None` is `NaN`. Precision loss above 2^53 is not modelled. */
  function ParseInt(s: string): (r: Option<int>)
    ensures r.Some? ==> exists k :: 0 <= k < |s| && Text.IsDigit(s[k])
  {
    var r := Signed(Text.TrimStart(s, IsJsWhiteSpace));
    assert (forall k :: 0 <= k < |s| ==> !Text.IsDigit(s[k])) ==> r.None? by {
      if forall k :: 0 <= k < |s| ==> !Text.IsDigit(s[k]) { NoDigitNaN(s); }
    }
    r
  }

  /** An optional sign, then the unsigned part. */
  function Signed(t: string): Option<int>
  {
    var negative := t != [] && t[0] == '-';
    var u := if t != [] && (t[0] == '-' || t[0] == '+') then t[1..] else t;
    match Unsigned(u)
    case None => None
    case Some(n) =>
      var value: int := if negative then -(n as int) else n;
      Some(value)
  }

  /** An optional `0x`/`0X` prefix choosing base 16, then the longest run of digits. */
  function Unsigned(u: string): Option<nat>
  {
    if |u| >= 2 && u[0] == '0' && (u[1] == 'x' || u[1] == 'X') then Run(u[2..], 16) else Run(u, 10)
  }

  /** The value of the leading digits, or `None` when there are none. */
  function Run(s: string, radix: nat): (r: Option<nat>)
    ensures r.None? <==> s == [] || RadixDigit(s[0], radix).None?
  {
    var d := DigitRun(s, radix);
    if d == [] then None else Some(RunValue(d, radix))
  }

  /** In base 10 a run of digits has the value decimal rendering gives it. */
  lemma {:induction false} DecimalRunValue(s: string)
    requires forall k :: 0 <= k < |s| ==> Text.IsDigit(s[k])
    ensures forall k :: 0 <= k < |s| ==> RadixDigit(s[k], 10).Some?
    ensures RunValue(s, 10) == Text.DigitsValue(s)
  {
    if s != [] {
      DecimalRunValue(s[..|s| - 1]);
    }
  }

  /** The digit run stops exactly at the end of a decimal rendering when what follows is
      not a digit. */
  lemma {:induction false} DigitRunOfDecimal(d: string, rest: string)
    requires forall k :: 0 <= k < |d| ==> Text.IsDigit(d[k])
    requires rest != [] ==> !Text.IsDigit(rest[0]) && !('a' <= rest[0] <= 'z') && !('A' <= rest[0] <= 'Z')
    ensures DigitRun(d + rest, 10) == d
  {
    if d != [] {
      assert (d + rest)[1..] == d[1..] + rest;
      DigitRunOfDecimal(d[1..], rest);
    } else {
      assert d + rest == rest;
    }
  }

  /** Decimal digits, followed by anything but a digit or a letter, are read in base 10. */
  lemma UnsignedDecimal(d: string, rest: string)
    requires d != [] && forall k :: 0 <= k < |d| ==> Text.IsDigit(d[k])
    requires rest != [] ==> !Text.IsDigit(rest[0]) && !('a' <= rest[0] <= 'z') && !('A' <= rest[0] <= 'Z')
    ensures Unsigned(d + rest) == Some(Text.DigitsValue(d))
  {
    DecimalRunValue(d);
    DigitRunOfDecimal(d, rest);
    var u := d + rest;
    assert |u| >= 2 ==> u[1] != 'x' && u[1] != 'X';
  }

  /** Nothing is trimmed from a text starting with a sign or a digit. */
  lemma NoLeadingBlank(s: string)
    requires s != [] && (s[0] == '-' || Text.IsDigit(s[0]))
    ensures Text.TrimStart(s, IsJsWhiteSpace) == s
  {
    assert !IsJsWhiteSpace(s[0]);
  }

  /** `parseInt` reads back what integer rendering writes, and ignores whatever follows the
      digits as long as it is not itself a digit: `parseInt("3abc")` is 3. */
  lemma ParseIntRoundTrip(n: int, rest: string)
    requires rest != [] ==> !Text.IsDigit(rest[0]) && !('a' <= rest[0] <= 'z') && !('A' <= rest[0] <= 'Z')
    ensures ParseInt(Text.IntToString(n) + rest) == Some(n)
  {
    var m: nat := if n < 0 then -n else n;
    var d := Text.NatToString(m);
    Text.NatToStringRoundTrip(m);
    UnsignedDecimal(d, rest);
    ParseSigned(d + rest, m, n < 0);
    if n < 0 {
      assert Text.IntToString(n) == "-" + d;
      Text.ConcatAssoc("-", d, rest);
    } else {
      assert Text.IntToString(n) == d;
    }
  }

  /** An unsigned number, with or without a minus sign in front. */
  lemma ParseSigned(u: string, m: nat, negative: bool)
    requires u != [] && Text.IsDigit(u[0]) && Unsigned(u) == Some(m)
    ensures ParseInt(if negative then "-" + u else u) == Some(if negative then -(m as int) else m)
  {
    var s := if negative then "-" + u else u;
    NoLeadingBlank(s);
    assert ParseInt(s) == Signed(s);
    if negative {
      assert s[0] == '-' && s[1..] == u;
    } else {
      assert s[0] != '-' && s[0] != '+';
    }
  }

  /** A text without a decimal digit is `NaN`. */
  lemma NoDigitNaN(s: string)
    requires forall k :: 0 <= k < |s| ==> !Text.IsDigit(s[k])
    ensures Signed(Text.TrimStart(s, IsJsWhiteSpace)) == None
  {
    var t := Text.TrimStart(s, IsJsWhiteSpace);
    var u := if t != [] && (t[0] == '-' || t[0] == '+') then t[1..] else t;
    if u != [] {
      var at := |s| - |u|;
      assert u == s[at..];
      assert u[0] == s[at];
    }
    UnsignedNoDigit(u);
  }

  /** Text that does not start with a decimal digit has no unsigned number in front. */
  lemma UnsignedNoDigit(u: string)
    requires u != [] ==> !Text.IsDigit(u[0])
    ensures Unsigned(u) == None
  {
    if u != [] {
      NotDecimalDigit(u[0]);
      assert u[0] != '0';
    }
  }

  /** A character that is not a decimal digit is no digit in base 10. */
  lemma NotDecimalDigit(ch: char)
    requires !Text.IsDigit(ch)
    ensures RadixDigit(ch, 10).None?
  {
  }
}
