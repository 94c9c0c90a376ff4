/** Tree paths as strings, the way the Go code tests and rewrites them. */
module Paths {
  import opened Text

  /** The test strings.HasPrefix(p, q+"/"). */
  predicate StrictlyUnder(p: string, q: string) {
    q + "/" <= p
  }

  predicate Under(p: string, q: string) {
    p == q || StrictlyUnder(p, q)
  }

  predicate Comparable(p: string, q: string) {
    Under(p, q) || Under(q, p)
  }

  /** The rewriting destination + strings.TrimPrefix(p, from). */
  function Rebase(p: string, from: string, destination: string): string {
    if from <= p then destination + p[|from|..] else destination + p
  }

  lemma StrictlyUnderAt(p: string, q: string)
    ensures StrictlyUnder(p, q) <==> |q| < |p| && q <= p && p[|q|] == '/'
  {
  }

  lemma UnderTransitive(p: string, q: string, r: string)
    requires Under(p, q) && Under(q, r)
    ensures Under(p, r)
    ensures StrictlyUnder(p, q) || StrictlyUnder(q, r) ==> StrictlyUnder(p, r)
  {
  }

  /** Two directories holding the same path are nested. */
  lemma AncestorsComparable(p: string, q: string, r: string)
    requires Under(p, q) && Under(p, r)
    ensures Comparable(q, r)
  {
    StrictlyUnderAt(p, q);
    StrictlyUnderAt(p, r);
    StrictlyUnderAt(q, r);
    StrictlyUnderAt(r, q);
  }

  /** Rewriting is invertible and lands under the destination. */
  lemma RebaseBack(p: string, from: string, destination: string)
    requires Under(p, from)
    ensures Under(Rebase(p, from, destination), destination)
    ensures Rebase(Rebase(p, from, destination), destination, from) == p
    ensures Rebase(p, from, destination) == destination <==> p == from
  {
  }

  /** Rewriting keeps which path lies under which. */
  lemma RebaseKeepsOrder(p: string, q: string, from: string, destination: string)
    requires Under(p, from) && Under(q, from)
    ensures StrictlyUnder(p, q) <==> StrictlyUnder(Rebase(p, from, destination), Rebase(q, from, destination))
    ensures p == q <==> Rebase(p, from, destination) == Rebase(q, from, destination)
  {
    RebaseBack(p, from, destination);
    RebaseBack(q, from, destination);
    StrictlyUnderAt(p, from);
    StrictlyUnderAt(q, from);
    var p', q' := Rebase(p, from, destination), Rebase(q, from, destination);
    StrictlyUnderAt(p, q);
    StrictlyUnderAt(p', q');
    assert p == from + p[|from|..] && q == from + q[|from|..];
    assert p[|from|..] == p'[|destination|..] && q[|from|..] == q'[|destination|..];
    if q <= p {
      assert q' == p'[..|q'|];
    }
    if q' <= p' {
      assert q == p[..|q|];
    }
  }

  // ---------------------------------------------------------------- segments

  /** strings.Split(p, "/"). */
  function Segments(p: string): (segs: seq<string>)
    ensures |segs| >= 1 && forall i :: 0 <= i < |segs| ==> Lacks(segs[i], '/')
  {
    Split(p, '/')
  }

  /** The string prefix test is exactly the prefix test on path segments. */
  lemma UnderIsSegmentPrefix(p: string, q: string)
    ensures StrictlyUnder(p, q) <==> Segments(q) < Segments(p)
    ensures Under(p, q) <==> Segments(q) <= Segments(p)
  {
    JoinSplit(p, '/');
    JoinSplit(q, '/');
    assert Segments(q) <= Segments(p) ==> Segments(q) == Segments(p) || Segments(q) < Segments(p);
    if StrictlyUnder(p, q) {
      var r := p[|q| + 1..];
      assert p == q + "/" + r;
      SplitConcat(q, r, '/');
    }
    if Segments(q) < Segments(p) {
      var rest := Segments(p)[|Segments(q)|..];
      assert Segments(p) == Segments(q) + rest;
      JoinConcat(Segments(q), rest, '/');
      assert p == q + "/" + Join(rest, '/');
    }
  }

  // ----------------------------------------------------------- normalization

  predicate PlainSegment(seg: string) {
    seg != "" && seg != "." && seg != ".."
  }

  /** Names as they stand in a normalized path. */
  predicate PlainNames(segs: seq<string>) {
    forall i :: 0 <= i < |segs| ==> PlainSegment(segs[i]) && Lacks(segs[i], '/')
  }

  /** A path with no empty, "." or ".." segment. */
  predicate CleanPath(p: string) {
    PlainNames(Segments(p))
  }

  /** How path.Clean reads a rooted path, segment by segment. */
  function Resolve(segs: seq<string>, done: seq<string>): seq<string>
    decreases segs
  {
    if segs == [] then done
    else if segs[0] == "" || segs[0] == "." then Resolve(segs[1..], done)
    else if segs[0] == ".." then Resolve(segs[1..], if done == [] then [] else done[..|done| - 1])
    else Resolve(segs[1..], done + [segs[0]])
  }

  /** path.Clean("/" + p)[1:], the result of normalizeTreePath. */
  function Normalize(p: string): string {
    Join(Resolve(Segments(p), []), '/')
  }

  lemma {:induction false} ResolveGivesPlain(segs: seq<string>, done: seq<string>)
    requires PlainNames(done) && forall i :: 0 <= i < |segs| ==> Lacks(segs[i], '/')
    ensures PlainNames(Resolve(segs, done))
    decreases segs
  {
    if segs != [] {
      if segs[0] == "" || segs[0] == "." {
        ResolveGivesPlain(segs[1..], done);
      } else if segs[0] == ".." {
        ResolveGivesPlain(segs[1..], if done == [] then [] else done[..|done| - 1]);
      } else {
        assert PlainNames(done + [segs[0]]);
        ResolveGivesPlain(segs[1..], done + [segs[0]]);
      }
    }
  }

  lemma {:induction false} ResolveKeepsPlain(segs: seq<string>, done: seq<string>)
    requires PlainNames(segs)
    ensures Resolve(segs, done) == done + segs
    decreases segs
  {
    if segs == [] {
      assert done + segs == done;
    } else {
      assert PlainSegment(segs[0]);
      ResolveKeepsPlain(segs[1..], done + [segs[0]]);
      assert done + segs == done + [segs[0]] + segs[1..];
    }
  }

  lemma RootHasNoName()
    ensures Segments("") == [""] && !CleanPath("") && Normalize("") == ""
  {
    SplitWhole("", '/');
    assert !PlainSegment(Segments("")[0]);
    assert [""][1..] == [];
    assert Resolve([""], []) == Resolve([], []) == [];
  }

  /** Normalizing gives the root or a clean path, and changes exactly the other paths. */
  lemma NormalizeIsNormalForm(p: string)
    ensures Normalize(p) == "" || CleanPath(Normalize(p))
    ensures Normalize(p) == p <==> p == "" || CleanPath(p)
    ensures Normalize(Normalize(p)) == Normalize(p)
  {
    NormalizeGivesClean(p);
    NormalizeFixesClean(p);
    NormalizeFixesClean(Normalize(p));
    RootHasNoName();
  }

  lemma NormalizeGivesClean(p: string)
    ensures Normalize(p) == "" || CleanPath(Normalize(p))
  {
    var segs := Resolve(Segments(p), []);
    ResolveGivesPlain(Segments(p), []);
    if segs != [] {
      SplitJoin(segs, '/');
    }
  }

  lemma NormalizeFixesClean(p: string)
    ensures CleanPath(p) ==> Normalize(p) == p
  {
    if CleanPath(p) {
      ResolveKeepsPlain(Segments(p), []);
      JoinSplit(p, '/');
      assert [] + Segments(p) == Segments(p);
    }
  }

  lemma {:induction false} ResolveConcat(a: seq<string>, b: seq<string>, done: seq<string>)
    ensures Resolve(a + b, done) == Resolve(b, Resolve(a, done))
    decreases a
  {
    if a == [] {
      assert a + b == b;
    } else {
      assert (a + b)[1..] == a[1..] + b;
      if a[0] == "" || a[0] == "." {
        ResolveConcat(a[1..], b, done);
      } else if a[0] == ".." {
        ResolveConcat(a[1..], b, if done == [] then [] else done[..|done| - 1]);
      } else {
        ResolveConcat(a[1..], b, done + [a[0]]);
      }
    }
  }

  /** Where the last slash of a path is, or -1. */
  function LastSlash(p: string): (k: int)
    ensures -1 <= k < |p|
    ensures k >= 0 ==> p[k] == '/'
    ensures forall i :: k < i < |p| ==> p[i] != '/'
  {
    if p == "" then -1
    else if p[|p| - 1] == '/' then |p| - 1
    else LastSlash(p[..|p| - 1])
  }

  /** The directory a path lies in; a single name lies at the root. */
  function Parent(p: string): string {
    if LastSlash(p) >= 0 then p[..LastSlash(p)] else ""
  }

  /** path.Join of a normalized directory and a name. */
  function Child(p: string, name: string): string {
    if p == "" then name else p + "/" + name
  }

  lemma LastSlashOf(p: string, name: string)
    requires Lacks(name, '/')
    ensures LastSlash(p + "/" + name) == |p|
    ensures LastSlash(name) == -1
  {
    var whole := p + "/" + name;
    assert whole[|p|] == '/' && whole[|p| + 1..] == name;
    assert forall i :: |p| < i < |whole| ==> whole[i] == name[i - |p| - 1];
  }

  lemma ParentOfChild(p: string, name: string)
    requires Lacks(name, '/')
    ensures Parent(Child(p, name)) == p
  {
    LastSlashOf(p, name);
    if p != "" {
      assert (p + "/" + name)[..|p|] == p;
    }
  }

  lemma JoinLast(init: seq<string>, last: string)
    requires PlainNames(init)
    ensures Join(init + [last], '/') == Child(Join(init, '/'), last)
  {
    if init == [] {
      assert init + [last] == [last];
    } else {
      JoinOneMore(init, last);
      NonEmptyJoin(init);
    }
  }

  lemma JoinOneMore(init: seq<string>, last: string)
    requires init != []
    ensures Join(init + [last], '/') == Join(init, '/') + "/" + last
  {
    JoinConcat(init, [last], '/');
  }

  lemma NonEmptyJoin(segs: seq<string>)
    requires segs != [] && PlainNames(segs)
    ensures Join(segs, '/') != ""
  {
  }

  /** Resolving one name after others. */
  lemma ResolveOneMore(segs: seq<string>, name: string)
    ensures var done := Resolve(segs, []);
            Resolve(segs + [name], []) ==
            if name == "" || name == "." then done
            else if name == ".." then (if done == [] then [] else done[..|done| - 1])
            else done + [name]
  {
    ResolveConcat(segs, [name], []);
    assert [name][1..] == [];
  }

  /**
   * Normalization name by name: one more name appends it, an empty name or "." changes nothing,
   * and ".." goes to the parent directory, staying at the root when there is none.
   */
  lemma NormalizeStep(p: string, name: string)
    requires Lacks(name, '/')
    ensures Normalize(p + "/" + name) ==
            if name == "" || name == "." then Normalize(p)
            else if name == ".." then Parent(Normalize(p))
            else Child(Normalize(p), name)
  {
    SplitWhole(name, '/');
    SplitConcat(p, name, '/');
    ResolveOneMore(Segments(p), name);
    ResolveGivesPlain(Segments(p), []);
    ExtendNormal(Resolve(Segments(p), []), name);
  }

  lemma ExtendNormal(done: seq<string>, name: string)
    requires PlainNames(done)
    ensures Join(done + [name], '/') == Child(Join(done, '/'), name)
    ensures Join(if done == [] then [] else done[..|done| - 1], '/') == Parent(Join(done, '/'))
  {
    JoinLast(done, name);
    if done != [] {
      var init, last := done[..|done| - 1], done[|done| - 1];
      assert done == init + [last];
      JoinLast(init, last);
      ParentOfChild(Join(init, '/'), last);
    }
  }

  /** The normal form of a single name. */
  lemma NormalizeName(name: string)
    requires Lacks(name, '/')
    ensures Normalize(name) == if PlainSegment(name) then name else ""
  {
    SplitWhole(name, '/');
    assert [] + [name] == [name];
    ResolveOneMore([], name);
  }
}
