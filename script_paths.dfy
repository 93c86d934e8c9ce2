/**
 * How the Node.js scripts turn a command-line file argument into the path they open.
 * Two variants exist: instance-preprocessor.js and run-experiment.js test the three
 * cases with early returns, while process- and calc-experiment-results.js run the two
 * rewrites as consecutive `if`s, so a rewritten `./x` goes through the second check as well.
 */
module ScriptPaths {
  import JsText

  /** A path the scripts take as it is: absolute, home-relative, or starting with `ftp`
      or `http`. */
  predicate Anchored(f: string)
  {
    "/" <= f || "~" <= f || "ftp" <= f || "http" <= f
  }

  /** The working directory, a slash, and `f` without its first `./`. */
  function UnderCwd(cwd: string, f: string): (r: string)
    requires "./" <= f
    ensures r == cwd + "/" + f[2..]
  {
    JsText.ReplaceFirstAtStart(f, "./", "");
    cwd + "/" + JsText.ReplaceFirst(f, "./", "")
  }

  /** The early-return variant of instance-preprocessor.js and run-experiment.js. */
  function Resolve(cwd: string, f: string): (r: string)
    ensures Anchored(cwd + "/") ==> Anchored(r)
  {
    if "./" <= f then
      assert Anchored(cwd + "/") ==> Anchored(cwd + "/" + f[2..]) by {
        if Anchored(cwd + "/") { AnchoredExtend(cwd + "/", f[2..]); }
      }
      UnderCwd(cwd, f)
    else if !Anchored(f) then
      assert Anchored(cwd + "/") ==> Anchored(cwd + "/" + f) by {
        if Anchored(cwd + "/") { AnchoredExtend(cwd + "/", f); }
      }
      cwd + "/" + f
    else f
  }

  /** The consecutive-`if` variant of process- and calc-experiment-results.js. */
  function ResolveTwice(cwd: string, f: string): (r: string)
    ensures Anchored(cwd + "/") ==> r == Resolve(cwd, f)
  {
    var g := if "./" <= f then UnderCwd(cwd, f) else f;
    if !Anchored(g) then cwd + "/" + g else g
  }

  /** An anchored path stays anchored whatever is appended to it. */
  lemma AnchoredExtend(a: string, b: string)
    requires Anchored(a)
    ensures Anchored(a + b)
  {
    var p := if "/" <= a then "/" else if "~" <= a then "~" else if "ftp" <= a then "ftp" else "http";
    assert p <= a;
    assert (a + b)[..|p|] == a[..|p|];
  }

  /** Whenever the working directory is anchored (as an absolute path is), every resolved
      path is anchored, and resolving it again changes nothing. */
  lemma ResolveAnchored(cwd: string, f: string)
    requires Anchored(cwd + "/")
    ensures Anchored(Resolve(cwd, f))
    ensures Resolve(cwd, Resolve(cwd, f)) == Resolve(cwd, f)
  {
    var r := Resolve(cwd, f);
    if "./" <= f {
      assert r == (cwd + "/") + f[2..];
      AnchoredExtend(cwd + "/", f[2..]);
    } else if !Anchored(f) {
      AnchoredExtend(cwd + "/", f);
    }
    assert r[0] != '.';
  }

  /** With a working directory that is not anchored (a Windows drive path such as
      `C:\work`, say), the consecutive-`if` variant puts it in front twice. */
  lemma ResolveTwiceRepeatsCwd(cwd: string, x: string)
    requires cwd != [] && cwd[0] != '/' && cwd[0] != '~' && cwd[0] != 'f' && cwd[0] != 'h'
    ensures Resolve(cwd, "./" + x) == cwd + "/" + x
    ensures ResolveTwice(cwd, "./" + x) == cwd + "/" + (cwd + "/" + x)
  {
    var f := "./" + x;
    assert "./" <= f && f[2..] == x;
    var g := cwd + "/" + x;
    assert g[0] == cwd[0];
  }
}
