/** Path policies: which patterns are accepted, and which paths they block. */
module PathPolicy {
  import opened Text
  import opened Paths

  /** Some pattern is the path itself or one of its directories. */
  predicate Blocked(patterns: seq<string>, path: string) {
    exists i :: 0 <= i < |patterns| && Under(path, patterns[i])
  }

  /** Pattern i is the one PathBlocked reports: it matches and no earlier one does. */
  predicate FirstMatch(patterns: seq<string>, path: string, i: nat) {
    i < |patterns| && Under(path, patterns[i]) &&
    forall j :: 0 <= j < i ==> !Under(path, patterns[j])
  }

  method PathBlocked(patterns: seq<string>, path: string) returns (pattern: string, blocked: bool)
    ensures blocked <==> Blocked(patterns, path)
    ensures blocked ==> exists i: nat :: FirstMatch(patterns, path, i) && pattern == patterns[i]
    ensures !blocked ==> pattern == ""
  {
    var i := 0;
    while i < |patterns|
      invariant 0 <= i <= |patterns|
      invariant forall j :: 0 <= j < i ==> !Under(path, patterns[j])
    {
      if path == patterns[i] || patterns[i] + "/" <= path {
        assert FirstMatch(patterns, path, i);
        return patterns[i], true;
      }
      i := i + 1;
    }
    return "", false;
  }

  /** Blocking compares whole segments, never part of a name. */
  lemma BlockedBySegments(patterns: seq<string>, path: string)
    ensures Blocked(patterns, path) <==> exists i :: 0 <= i < |patterns| && Segments(patterns[i]) <= Segments(path)
  {
    forall i | 0 <= i < |patterns|
      ensures Under(path, patterns[i]) <==> Segments(patterns[i]) <= Segments(path)
    {
      UnderIsSegmentPrefix(path, patterns[i]);
    }
  }

  /** Everything below a blocked path is blocked. */
  lemma BlockedDownward(patterns: seq<string>, path: string, below: string)
    requires Blocked(patterns, path) && Under(below, path)
    ensures Blocked(patterns, below)
  {
  }

  // ------------------------------------------------------------ normal form

  /** strings.Trim(s, "/"). */
  function TrimSlashes(s: string): string {
    if s != "" && s[0] == '/' then TrimSlashes(s[1..])
    else if s != "" && s[|s| - 1] == '/' then TrimSlashes(s[..|s| - 1])
    else s
  }

  predicate GoodPattern(p: string) {
    CleanPath(p) && '\0' !in p && '\n' !in p
  }

  method NormalizePathPattern(pattern: string) returns (p: string, ok: bool)
    ensures ok <==> GoodPattern(TrimSlashes(pattern))
    ensures p == if ok then TrimSlashes(pattern) else ""
  {
    p := TrimSlashes(pattern);
    var segs := Segments(p);
    if p == "" || p == "." {
      SplitWhole(p, '/');
      assert !PlainSegment(Segments(p)[0]);
      return "", false;
    }
    var i := 0;
    while i < |segs|
      invariant 0 <= i <= |segs|
      invariant forall j :: 0 <= j < i ==> PlainSegment(segs[j])
    {
      if segs[i] == "" || segs[i] == "." || segs[i] == ".." {
        assert !PlainSegment(Segments(p)[i]);
        return "", false;
      }
      i := i + 1;
    }
    if '\0' in p || '\n' in p {
      return "", false;
    }
    return p, true;
  }

  predicate AllSlashes(s: string) {
    forall i :: 0 <= i < |s| ==> s[i] == '/'
  }

  /** A clean path neither starts nor ends with a slash. */
  lemma CleanHasNoOuterSlash(p: string)
    ensures CleanPath(p) ==> p != "" && p[0] != '/' && p[|p| - 1] != '/'
  {
    if p == "" {
      assert !PlainSegment(Segments(p)[0]);
    } else if p[0] == '/' {
      SplitStep(p[0], p[1..], '/');
      assert p == [p[0]] + p[1..];
      assert !PlainSegment(Segments(p)[0]);
    } else if p[|p| - 1] == '/' {
      var q := p[..|p| - 1];
      assert p == q + "/" + "";
      SplitConcat(q, "", '/');
      assert !PlainSegment(Segments(p)[|Segments(p)| - 1]);
    }
  }

  lemma {:induction false} TrimAround(before: string, p: string, after: string)
    requires AllSlashes(before) && AllSlashes(after)
    requires p != "" && p[0] != '/' && p[|p| - 1] != '/'
    ensures TrimSlashes(before + p + after) == p
    decreases |before| + |after|
  {
    var s := before + p + after;
    if before != "" {
      assert s[0] == before[0];
      assert s[1..] == before[1..] + p + after;
      TrimAround(before[1..], p, after);
    } else if after != "" {
      assert s[0] == p[0];
      assert s[|s| - 1] == after[|after| - 1];
      assert s[..|s| - 1] == before + p + after[..|after| - 1];
      TrimAround(before, p, after[..|after| - 1]);
    } else {
      assert s == p;
    }
  }

  lemma {:induction false} TrimShape(s: string) returns (before: string, after: string)
    ensures AllSlashes(before) && AllSlashes(after)
    ensures s == before + TrimSlashes(s) + after
  {
    if s != "" && s[0] == '/' {
      before, after := TrimShape(s[1..]);
      before := "/" + before;
    } else if s != "" && s[|s| - 1] == '/' {
      before, after := TrimShape(s[..|s| - 1]);
      after := after + "/";
    } else {
      before, after := "", "";
    }
  }

  /**
   * What normalization accepts: p is the normal form of a pattern exactly when p is good and
   * the pattern is p with slashes around it. The normal form of a normal form is itself.
   */
  lemma NormalPatterns(pattern: string, p: string)
    ensures GoodPattern(TrimSlashes(pattern)) && p == TrimSlashes(pattern) <==>
            GoodPattern(p) && exists before, after :: AllSlashes(before) && AllSlashes(after) && pattern == before + p + after
    ensures GoodPattern(p) ==> TrimSlashes(p) == p
  {
    var before, after := TrimShape(pattern);
    if GoodPattern(p) {
      CleanHasNoOuterSlash(p);
      TrimAround("", p, "");
      assert "" + p + "" == p;
      if exists b, a :: AllSlashes(b) && AllSlashes(a) && pattern == b + p + a {
        var b, a :| AllSlashes(b) && AllSlashes(a) && pattern == b + p + a;
        TrimAround(b, p, a);
      }
    }
  }

  /** A list of names: none empty, "." or "..", none with a slash, a NUL or a newline in it. */
  ghost predicate AreNames(names: seq<string>) {
    names != [] && forall i :: 0 <= i < |names| ==>
      names[i] != "" && names[i] != "." && names[i] != ".." &&
      forall k :: 0 <= k < |names[i]| ==> names[i][k] != '/' && names[i][k] != '\0' && names[i][k] != '\n'
  }

  /** Good patterns are exactly the lists of names written with slashes between them. */
  lemma {:induction false} GoodPatternsAreNames(p: string)
    ensures GoodPattern(p) <==> exists names :: AreNames(names) && p == Join(names, '/')
  {
    if GoodPattern(p) {
      JoinSplit(p, '/');
      NamesLack(Segments(p), '\0');
      NamesLack(Segments(p), '\n');
      assert AreNames(Segments(p));
    }
    if exists names :: AreNames(names) && p == Join(names, '/') {
      var names :| AreNames(names) && p == Join(names, '/');
      assert forall i :: 0 <= i < |names| ==> Lacks(names[i], '/') && Lacks(names[i], '\0') && Lacks(names[i], '\n');
      SplitJoin(names, '/');
      NamesLack(names, '\0');
      NamesLack(names, '\n');
    }
  }

  lemma {:induction false} NamesLack(names: seq<string>, c: char)
    requires c != '/'
    ensures Lacks(Join(names, '/'), c) <==> forall i :: 0 <= i < |names| ==> Lacks(names[i], c)
  {
    if |names| == 1 {
      assert Join(names, '/') == names[0];
    } else if |names| > 1 {
      NamesLack(names[1..], c);
      assert names == [names[0]] + names[1..];
      assert Lacks(Join(names, '/'), c) <==> Lacks(names[0], c) && Lacks(Join(names[1..], '/'), c);
      assert forall i :: 1 <= i < |names| ==> names[i] == names[1..][i - 1];
    }
  }
}
