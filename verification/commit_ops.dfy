/** The operations of a commit request and their validation. */
module CommitOps {
  import opened Text
  import opened Paths
  import opened Results
  import opened GitIds

  /** A put, a delete, or (moveFrom set) a move to path. */
  datatype CommitOp = CommitOp(delete: bool, moveFrom: string, path: string, blobSHA: string, mode: string) {
    predicate IsMove() { moveFrom != "" }
    predicate IsDelete() { moveFrom == "" && delete }
    predicate IsPut() { moveFrom == "" && !delete }
  }

  const MAX_COMMIT_OPS := 1000

  predicate HasControl(p: string) {
    exists i :: 0 <= i < |p| && (p[i] as int < 0x20 || p[i] as int == 0x7f)
  }

  /** The result of normalizeTreePath. */
  method NormalizeTreePath(p: string) returns (r: Result<string>)
    ensures r == if '\0' in p then Err(InvalidOps) else Ok(Normalize(p))
  {
    if '\0' in p {
      return Err(InvalidOps);
    }
    return Ok(Normalize(p));
  }

  predicate UsablePath(p: string) {
    '\0' !in p && Normalize(p) != "" && !HasControl(Normalize(p))
  }

  /** An operation the rules accept, looked at on its own. */
  predicate Acceptable(op: CommitOp) {
    UsablePath(op.path) &&
    if op.IsMove() then
      UsablePath(op.moveFrom) && !op.delete && op.blobSHA == "" && op.mode == "" &&
      !Under(Normalize(op.path), Normalize(op.moveFrom))
    else if op.delete then
      op.blobSHA == ""
    else
      IsHexSHA(op.blobSHA) && op.mode in {"", "100644", "100755"}
  }

  function NormalOp(op: CommitOp): CommitOp {
    var p := Normalize(op.path);
    if op.IsMove() then op.(path := p, moveFrom := Normalize(op.moveFrom))
    else if op.IsPut() && op.mode == "" then op.(path := p, mode := "100644")
    else op.(path := p)
  }

  function NormalOps(ops: seq<CommitOp>): seq<CommitOp> {
    seq(|ops|, i requires 0 <= i < |ops| => NormalOp(ops[i]))
  }

  /** Puts and deletes never touch comparable paths. */
  ghost predicate Disjoint(ops: seq<CommitOp>) {
    forall i, j :: 0 <= i < j < |ops| && !ops[i].IsMove() && !ops[j].IsMove() ==> !Comparable(ops[i].path, ops[j].path)
  }

  ghost predicate Accepted(ops: seq<CommitOp>) {
    1 <= |ops| <= MAX_COMMIT_OPS &&
    (forall i :: 0 <= i < |ops| ==> Acceptable(ops[i])) &&
    Disjoint(NormalOps(ops))
  }

  // What the rules are and what a normalized operation is, each spelled out on its own.

  /** No NUL, not the root, and no control character once normalized. */
  ghost predicate IsUsable(p: string) {
    (forall i :: 0 <= i < |p| ==> p[i] != '\0') && Normalize(p) != "" &&
    forall i :: 0 <= i < |Normalize(p)| ==> ' ' <= Normalize(p)[i] && Normalize(p)[i] as int != 127
  }

  ghost predicate IsObjectId(s: string) {
    |s| == 40 && forall i :: 0 <= i < |s| ==> '0' <= s[i] <= '9' || 'a' <= s[i] <= 'f'
  }

  ghost predicate MeetsRules(op: CommitOp) {
    IsUsable(op.path) &&
    (op.moveFrom != "" ==>
      IsUsable(op.moveFrom) && !op.delete && op.blobSHA == "" && op.mode == "" &&
      Normalize(op.path) != Normalize(op.moveFrom) && !(Normalize(op.moveFrom) + "/" <= Normalize(op.path))) &&
    (op.moveFrom == "" && op.delete ==> op.blobSHA == "") &&
    (op.moveFrom == "" && !op.delete ==> IsObjectId(op.blobSHA) && (op.mode == "" || op.mode == "100644" || op.mode == "100755"))
  }

  /** Paths normalized; a put without a mode gets that of a plain file; everything else as given. */
  ghost predicate IsNormalized(given: CommitOp, op: CommitOp) {
    op.delete == given.delete && op.blobSHA == given.blobSHA && op.path == Normalize(given.path) &&
    op.moveFrom == (if given.moveFrom == "" then "" else Normalize(given.moveFrom)) &&
    op.mode == if given.moveFrom == "" && !given.delete && given.mode == "" then "100644" else given.mode
  }

  lemma UsableMeans(p: string)
    ensures UsablePath(p) <==> IsUsable(p)
  {
    assert HasControl(Normalize(p)) <==> exists i :: 0 <= i < |Normalize(p)| && !(' ' <= Normalize(p)[i] && Normalize(p)[i] as int != 127);
  }

  lemma AcceptableMeansRules(op: CommitOp)
    ensures Acceptable(op) <==> MeetsRules(op)
    ensures Acceptable(op) ==> IsNormalized(op, NormalOp(op))
  {
    UsableMeans(op.path);
    UsableMeans(op.moveFrom);
  }

  ghost predicate Apart(p: string, q: string) {
    p != q && !(p + "/" <= q) && !(q + "/" <= p)
  }

  /** One to a thousand operations that meet the rules, no two puts or deletes at or below the same path. */
  ghost predicate ListMeetsRules(ops: seq<CommitOp>) {
    1 <= |ops| <= 1000 && (forall i :: 0 <= i < |ops| ==> MeetsRules(ops[i])) &&
    forall i, j :: 0 <= i < j < |ops| && ops[i].moveFrom == "" && ops[j].moveFrom == "" ==>
      Apart(Normalize(ops[i].path), Normalize(ops[j].path))
  }

  lemma {:induction false} AcceptedMeansRules(ops: seq<CommitOp>)
    ensures Accepted(ops) <==> ListMeetsRules(ops)
    ensures Accepted(ops) ==> |NormalOps(ops)| == |ops| && forall i :: 0 <= i < |ops| ==> IsNormalized(ops[i], NormalOps(ops)[i])
  {
    var out := NormalOps(ops);
    forall i | 0 <= i < |ops|
      ensures Acceptable(ops[i]) <==> MeetsRules(ops[i])
      ensures Acceptable(ops[i]) ==> IsNormalized(ops[i], out[i])
    {
      AcceptableMeansRules(ops[i]);
    }
    if forall i :: 0 <= i < |ops| ==> Acceptable(ops[i]) {
      AcceptedApart(ops);
    }
  }

  lemma {:induction false} AcceptedApart(ops: seq<CommitOp>)
    requires forall i :: 0 <= i < |ops| ==> Acceptable(ops[i])
    ensures Disjoint(NormalOps(ops)) <==>
            forall i, j :: 0 <= i < j < |ops| && ops[i].moveFrom == "" && ops[j].moveFrom == "" ==>
              Apart(Normalize(ops[i].path), Normalize(ops[j].path))
  {
    var out := NormalOps(ops);
    forall i | 0 <= i < |ops| ensures out[i].path == Normalize(ops[i].path) && (out[i].IsMove() <==> ops[i].moveFrom != "") {
      assert Acceptable(ops[i]);
    }
    forall i, j | 0 <= i < j < |ops| ensures Comparable(out[i].path, out[j].path) <==> !Apart(Normalize(ops[i].path), Normalize(ops[j].path)) {
    }
  }

  /** The rules for one operation, in the order the code tests them. */
  method ValidateCommitOp(given: CommitOp) returns (r: Result<CommitOp>)
    ensures r == if Acceptable(given) then Ok(NormalOp(given)) else Err(InvalidOps)
    ensures r.Ok? <==> MeetsRules(given)
    ensures r.Ok? ==> IsNormalized(given, r.value)
  {
    AcceptableMeansRules(given);
    var normal := NormalizeTreePath(given.path);
    if normal.Err? || normal.value == "" || HasControl(normal.value) {
      return Err(InvalidOps);
    }
    var p := normal.value;
    var op := given.(path := p);
    if op.moveFrom != "" {
      var source := NormalizeTreePath(op.moveFrom);
      if source.Err? || source.value == "" || HasControl(source.value) {
        return Err(InvalidOps);
      }
      var from := source.value;
      if op.delete || op.blobSHA != "" || op.mode != "" {
        return Err(InvalidOps);
      }
      if from == p || from + "/" <= p {
        return Err(InvalidOps);
      }
      return Ok(op.(moveFrom := from));
    }
    if op.delete {
      return if op.blobSHA != "" then Err(InvalidOps) else Ok(op);
    }
    if op.blobSHA == "" || !IsHexSHA(op.blobSHA) {
      return Err(InvalidOps);
    }
    if op.mode == "" {
      return Ok(op.(mode := "100644"));
    }
    if op.mode != "100644" && op.mode != "100755" {
      return Err(InvalidOps);
    }
    return Ok(op);
  }

  method OverlapsSeen(p: string, seen: set<string>) returns (overlaps: bool)
    ensures overlaps <==> exists other :: other in seen && Comparable(p, other)
  {
    var rest := seen;
    while rest != {}
      invariant rest <= seen
      invariant forall other :: other in seen - rest ==> !Comparable(p, other)
      decreases rest
    {
      var other :| other in rest;
      rest := rest - {other};
      if p == other || other + "/" <= p || p + "/" <= other {
        assert Comparable(p, other);
        return true;
      }
    }
    return false;
  }

  /** The paths of the puts and deletes. */
  ghost predicate PathsOf(ops: seq<CommitOp>, seen: set<string>) {
    (forall j :: 0 <= j < |ops| && !ops[j].IsMove() ==> ops[j].path in seen) &&
    (forall p :: p in seen ==> exists j :: 0 <= j < |ops| && !ops[j].IsMove() && ops[j].path == p)
  }

  lemma {:induction false} OneMoreOp(done: seq<CommitOp>, op: CommitOp, seen: set<string>)
    requires Disjoint(done) && PathsOf(done, seen)
    ensures op.IsMove() ==> Disjoint(done + [op]) && PathsOf(done + [op], seen)
    ensures !op.IsMove() ==> PathsOf(done + [op], seen + {op.path})
    ensures !op.IsMove() && (exists other :: other in seen && Comparable(op.path, other)) ==> !Disjoint(done + [op])
    ensures !op.IsMove() && (forall other :: other in seen ==> !Comparable(op.path, other)) ==> Disjoint(done + [op])
  {
    var more := done + [op];
    assert forall j :: 0 <= j < |done| ==> more[j] == done[j];
    assert more[|done|] == op;
    forall p | p in seen ensures exists j :: 0 <= j < |more| && !more[j].IsMove() && more[j].path == p {
      var j :| 0 <= j < |done| && !done[j].IsMove() && done[j].path == p;
      assert more[j] == done[j];
    }
  }

  lemma {:induction false} DisjointPrefix(ops: seq<CommitOp>, k: nat)
    requires k <= |ops| && !Disjoint(ops[..k])
    ensures !Disjoint(ops)
  {
    var i, j :| 0 <= i < j < k && !ops[..k][i].IsMove() && !ops[..k][j].IsMove() && Comparable(ops[..k][i].path, ops[..k][j].path);
    assert ops[i] == ops[..k][i] && ops[j] == ops[..k][j];
  }

  /** What the loop has established after the first i operations. */
  ghost predicate Validated(ops: seq<CommitOp>, i: nat, out: seq<CommitOp>, seen: set<string>) {
    i <= |ops| && (forall j :: 0 <= j < i ==> Acceptable(ops[j])) &&
    out == NormalOps(ops)[..i] && Disjoint(out) && PathsOf(out, seen)
  }

  lemma {:induction false} ValidatedStep(ops: seq<CommitOp>, i: nat, out: seq<CommitOp>, seen: set<string>)
    requires i < |ops| && Validated(ops, i, out, seen) && Acceptable(ops[i])
    ensures var op := NormalOp(ops[i]);
            var overlaps := !op.IsMove() && exists other :: other in seen && Comparable(op.path, other);
            if overlaps then !Accepted(ops)
            else Validated(ops, i + 1, out + [op], if op.IsMove() then seen else seen + {op.path})
  {
    var all, op := NormalOps(ops), NormalOp(ops[i]);
    assert all[..i + 1] == out + [op];
    OneMoreOp(out, op, seen);
    if !Disjoint(out + [op]) {
      DisjointPrefix(all, i + 1);
    }
  }

  lemma {:induction false} ValidatedAll(ops: seq<CommitOp>, out: seq<CommitOp>, seen: set<string>)
    requires 1 <= |ops| <= MAX_COMMIT_OPS && Validated(ops, |ops|, out, seen)
    ensures Accepted(ops) && out == NormalOps(ops)
  {
    assert NormalOps(ops)[..|ops|] == NormalOps(ops);
  }

  method ValidateCommitOps(ops: seq<CommitOp>) returns (r: Result<seq<CommitOp>>)
    ensures r.Ok? <==> Accepted(ops)
    ensures r.Ok? ==> ListMeetsRules(ops)
    ensures r.Ok? ==> r.value == NormalOps(ops)
    ensures r.Ok? ==> |r.value| == |ops| && forall i :: 0 <= i < |ops| ==> IsNormalized(ops[i], r.value[i])
    ensures r.Err? ==> r.error == InvalidOps
  {
    if |ops| == 0 || |ops| > MAX_COMMIT_OPS {
      return Err(InvalidOps);
    }
    var out: seq<CommitOp> := [];
    var seen: set<string> := {};
    var i := 0;
    while i < |ops|
      invariant 0 <= i <= |ops|
      invariant Validated(ops, i, out, seen)
    {
      var op := ValidateCommitOp(ops[i]);
      if op.Err? {
        return Err(InvalidOps);
      }
      ValidatedStep(ops, i, out, seen);
      if !op.value.IsMove() {
        var overlaps := OverlapsSeen(op.value.path, seen);
        if overlaps {
          return Err(InvalidOps);
        }
        seen := seen + {op.value.path};
      }
      out := out + [op.value];
      i := i + 1;
    }
    ValidatedAll(ops, out, seen);
    AcceptedMeansRules(ops);
    return Ok(out);
  }

  // ------------------------------------------------------------ normal form

  /** A validated operation: clean paths, a real mode, no move into itself. */
  predicate ValidOp(op: CommitOp) {
    CleanPath(op.path) && !HasControl(op.path) &&
    if op.IsMove() then
      CleanPath(op.moveFrom) && !HasControl(op.moveFrom) && !Under(op.path, op.moveFrom) &&
      !op.delete && op.blobSHA == "" && op.mode == ""
    else if op.delete then
      op.blobSHA == ""
    else
      IsHexSHA(op.blobSHA) && op.mode in {"100644", "100755"}
  }

  ghost predicate ValidOps(ops: seq<CommitOp>) {
    1 <= |ops| <= MAX_COMMIT_OPS &&
    (forall i :: 0 <= i < |ops| ==> ValidOp(ops[i])) &&
    Disjoint(ops)
  }

  lemma CleanIsUsable(p: string)
    ensures CleanPath(p) && !HasControl(p) <==> UsablePath(p) && Normalize(p) == p
    ensures UsablePath(p) ==> CleanPath(Normalize(p)) && !HasControl(Normalize(p))
  {
    NormalizeIsNormalForm(p);
    SplitWhole("", '/');
    assert !PlainSegment(Segments("")[0]);
    if '\0' in p {
      var i :| 0 <= i < |p| && p[i] == '\0';
      assert HasControl(p);
    }
  }

  lemma NormalOpIsValid(op: CommitOp)
    ensures Acceptable(op) ==> ValidOp(NormalOp(op))
    ensures ValidOp(op) <==> Acceptable(op) && NormalOp(op) == op
  {
    CleanIsUsable(op.path);
    CleanIsUsable(op.moveFrom);
    assert op.moveFrom == "" ==> !CleanPath(op.moveFrom) by {
      SplitWhole("", '/');
      assert !PlainSegment(Segments("")[0]);
    }
  }

  /**
   * Validation is a normal form: what it returns is valid, and the valid lists are exactly
   * the accepted lists it returns unchanged.
   */
  lemma ValidationIsNormalForm(ops: seq<CommitOp>)
    ensures Accepted(ops) ==> ValidOps(NormalOps(ops))
    ensures ValidOps(ops) <==> Accepted(ops) && NormalOps(ops) == ops
    ensures Accepted(ops) ==> Accepted(NormalOps(ops)) && NormalOps(NormalOps(ops)) == NormalOps(ops)
  {
    NormalOpsAreValid(ops);
    NormalOpsAreValid(NormalOps(ops));
  }

  lemma NormalOpsAreValid(ops: seq<CommitOp>)
    ensures Accepted(ops) ==> ValidOps(NormalOps(ops))
    ensures ValidOps(ops) <==> Accepted(ops) && NormalOps(ops) == ops
  {
    var out := NormalOps(ops);
    forall i | 0 <= i < |ops|
      ensures Acceptable(ops[i]) ==> ValidOp(out[i])
      ensures ValidOp(ops[i]) <==> Acceptable(ops[i]) && out[i] == ops[i]
    {
      NormalOpIsValid(ops[i]);
    }
    if ValidOps(ops) {
      assert out == ops;
    }
    if out == ops {
      assert forall i :: 0 <= i < |ops| ==> out[i] == ops[i];
    }
  }
}
