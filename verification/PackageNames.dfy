/** Names and paths of the generated package: when two code files coincide, which names the API
    accepts, and that different files have different paths. */
module PackageNames {
  import opened Text
  import opened Slugs
  import opened CodePackage

  /** Service `b` continues service `a` by one underscore, or by a double one and the start of `p`. */
  ghost predicate Continues(a: string, p: string, b: string, q: string) {
    || (b == a + "_" && p == "_" + q)
    || (exists y :: b == a + "__" + y && p == y + "__" + q)
  }

  /** Two functions share a code file exactly when they agree on both names, or one service name
      continues the other's and the function names make up for it. */
  lemma CodeStemsExactly(a: string, p: string, b: string, q: string)
    ensures CodeStem(a, p) == CodeStem(b, q) <==>
              (a == b && p == q) || Continues(a, p, b, q) || Continues(b, q, a, p)
  {
    if CodeStem(a, p) == CodeStem(b, q) {
      if |a| <= |b| { CoincidingStems(a, p, b, q); } else { CoincidingStems(b, q, a, p); }
    }
    if Continues(a, p, b, q) { ContinuedStem(a, p, b, q); }
    if Continues(b, q, a, p) { ContinuedStem(b, q, a, p); }
  }

  /** The same for the names of generated wrappers, which only have a prefix more. */
  lemma ToolNamesExactly(prefix: string, a: string, p: string, b: string, q: string)
    ensures prefix + a + "__" + p == prefix + b + "__" + q <==>
              (a == b && p == q) || Continues(a, p, b, q) || Continues(b, q, a, p)
  {
    CodeStemsExactly(a, p, b, q);
    assert prefix + a + "__" + p == prefix + CodeStem(a, p) && prefix + b + "__" + q == prefix + CodeStem(b, q);
    assert (prefix + CodeStem(a, p))[|prefix|..] == CodeStem(a, p);
    assert (prefix + CodeStem(b, q))[|prefix|..] == CodeStem(b, q);
  }

  lemma ContinuedStem(a: string, p: string, b: string, q: string)
    requires Continues(a, p, b, q)
    ensures CodeStem(a, p) == CodeStem(b, q)
  {
    if b == a + "_" && p == "_" + q { assert a + "__" + ("_" + q) == a + "_" + "__" + q; }
    forall y | b == a + "__" + y && p == y + "__" + q ensures CodeStem(a, p) == CodeStem(b, q) { StemShift(a, y, q); }
  }

  /** A service name with a double underscore shares code files with the service named before it. */
  lemma StemShift(x: string, y: string, p: string)
    ensures CodeStem(x + "__" + y, p) == CodeStem(x, y + "__" + p)
  {
    assert x + "__" + y + "__" + p == x + "__" + (y + "__" + p);
  }

  lemma CoincidingStems(a: string, p: string, b: string, q: string)
    requires |a| <= |b| && CodeStem(a, p) == CodeStem(b, q)
    ensures (a == b && p == q) || Continues(a, p, b, q)
  {
    var s := CodeStem(a, p);
    StemParts(a, p);
    StemParts(b, q);
    if |b| == |a| {
    } else if |b| == |a| + 1 {
      assert s[..|b|] == s[..|a|] + [s[|a|]];
      assert s[|a| + 2..] == [s[|a| + 2]] + s[|a| + 3..];
    } else {
      var y := s[|a| + 2..|b|];
      Cut(s, 0, |a|, |a| + 2, |b|);
      Cut(s, |a| + 2, |b|, |b| + 2, |s|);
      assert s[0..|a|] == s[..|a|] && s[0..|b|] == s[..|b|] && s[|b| + 2..|s|] == s[|b| + 2..];
      assert b == a + "__" + y && p == y + "__" + q;
    }
  }

  lemma StemParts(a: string, p: string)
    ensures var s := CodeStem(a, p);
            && s[..|a|] == a && s[|a|] == '_' && s[|a| + 1] == '_' && s[|a|..|a| + 2] == "__" && s[|a| + 2..] == p
  {}

  lemma Cut(s: string, i: nat, j: nat, k: nat, l: nat)
    requires i <= j <= k <= l <= |s|
    ensures s[i..l] == s[i..j] + s[j..k] + s[k..l]
  {}

  /** A service's file stem: starts with a letter or digit, no double underscore, no final one. */
  ghost predicate ModuleStem(s: string) { s != "" && Alnum(s[0]) && !Contains(s, "__") && s[|s| - 1] != '_' }

  /** Under such service stems a code file tells its service and its function. */
  lemma CodeStemsApart(a: string, p: string, b: string, q: string)
    requires ModuleStem(a) && ModuleStem(b) && CodeStem(a, p) == CodeStem(b, q)
    ensures a == b && p == q
  {
    var small, large := if |a| <= |b| then a else b, if |a| <= |b| then b else a;
    var ps, pl := if |a| <= |b| then p else q, if |a| <= |b| then q else p;
    CoincidingStems(small, ps, large, pl);
    forall y ensures small + "__" + y != large {
      var t := small + "__" + y;
      assert t[|small|..|small| + 2] == "__";
      assert OccursAt(t, "__", |small|);
    }
  }

  /** Service and function names as the API accepts them. */
  ghost predicate AcceptedName(n: string) {
    n != "" && (forall c <- n :: Ident(c) || c == '-') && Alnum(n[0]) && Alnum(n[|n| - 1])
  }

  /** For accepted service names only a double underscore stands in the way of a module stem. */
  lemma AcceptedStem(lower: Lower, n: string)
    requires LowerFixesPlain(lower) && AcceptedName(n)
    ensures ModuleStem(SanitizeWith(lower)(n)) <==> !Contains(Sanitize(lower, n), "__")
  {
    assert lower(n) == n;
  }

  function DirOf(p: Path): (r: string) {
    match p
    case Top(_) => ""
    case CodeDir(_) => "_code/"
    case ToolDir(Mcp, _) => "_mcp/"
    case ToolDir(Api, _) => "_api/"
  }

  function PathText(p: Path): (r: string) { "functions/" + (DirOf(p) + p.stem) + ".py" }

  lemma PathTexts(s: string)
    ensures PathText(Top(s)) == "functions/" + s + ".py" && PathText(CodeDir(s)) == "functions/_code/" + s + ".py"
    ensures PathText(ToolDir(Mcp, s)) == "functions/_mcp/" + s + ".py"
    ensures PathText(ToolDir(Api, s)) == "functions/_api/" + s + ".py"
    ensures forall kind: Kind :: DirOf(ToolDir(kind, s)) == kind.Dir() + "/"
  {
    assert "functions/" + ("" + s) == "functions/" + s && "functions/" + ("_code/" + s) == "functions/_code/" + s;
    assert "functions/" + ("_mcp/" + s) == "functions/_mcp/" + s;
    assert "functions/" + ("_api/" + s) == "functions/_api/" + s;
  }

  /** How much of `s` ends with its last slash. */
  function UpToSlash(s: string): (n: nat)
    ensures n <= |s|
  {
    if s == "" || s[|s| - 1] == '/' then |s| else UpToSlash(s[..|s| - 1])
  }

  lemma {:induction false} SlashSplits(d: string, a: string)
    requires '/' !in a && (d != "" ==> d[|d| - 1] == '/')
    ensures UpToSlash(d + a) == |d|
  {
    if a == "" {
      assert d + a == d;
    } else {
      SlashSplits(d, a[..|a| - 1]);
      assert (d + a)[..|d + a| - 1] == d + a[..|a| - 1];
    }
  }

  lemma DirTells(p: Path, q: Path)
    requires DirOf(p) == DirOf(q)
    ensures p.Top? == q.Top? && p.CodeDir? == q.CodeDir? && (p.ToolDir? ==> p.kind == q.kind)
  {
    assert DirOf(p) != "" ==> DirOf(p)[1] == DirOf(q)[1];
  }

  /** Different files have different paths, stems being free of slashes. */
  lemma PathTextInjective(p: Path, q: Path)
    requires '/' !in p.stem && '/' !in q.stem && PathText(p) == PathText(q)
    ensures p == q
  {
    var a, b := DirOf(p) + p.stem, DirOf(q) + q.stem;
    assert PathText(p)[10..|PathText(p)| - 3] == a && PathText(q)[10..|PathText(q)| - 3] == b;
    SlashSplits(DirOf(p), p.stem);
    SlashSplits(DirOf(q), q.stem);
    assert a[..|DirOf(p)|] == DirOf(p) && b[..|DirOf(q)|] == DirOf(q);
    assert a[|DirOf(p)|..] == p.stem && b[|DirOf(q)|..] == q.stem;
    DirTells(p, q);
  }
}
