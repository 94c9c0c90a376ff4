/** What the calls of the LFS protocol do when their steps are taken in a row, and what a verification has seen. */
module LfsSteps {
  import opened Results
  import opened LfsPointer
  import opened LfsKeys
  import opened LfsRegistry
  import opened LfsProtocol

  // ------------------------------------------------------------ calls in a row

  /**
   * A verification with nobody in between ends well, with the row verified, if and only if the row
   * exists and its key holds bytes of the announced length; otherwise nothing changes.
   */
  lemma VerifyDoes(env: Env, s: Server, v: nat, oid: string, size: int)
    requires v !in s.verifications && ValidOID(oid)
    ensures var s' := Do(env, Do(env, Do(env, s, VerifyRead(v, oid, size)), VerifyStat(v)), VerifySet(v));
            var ok := oid in s.rows && s.rows[oid].key in s.objects && |s.objects[s.rows[oid].key]| == size;
            s'.objects == s.objects && s'.uploads == s.uploads && s'.puts == s.puts &&
            s'.verifications == s.verifications[v := VerifyDone(ok)] &&
            s'.rows == if ok then s.rows[oid := Row(s.rows[oid].size, s.rows[oid].key, true)] else s.rows
  {
  }

  /** A batch registration adds a pending row under the object's key, unless there is a row. */
  lemma CreateRowDoes(env: Env, s: Server, oid: string, size: int)
    requires ValidOID(oid)
    ensures Do(env, s, CreateRow(oid, size)) ==
            if oid in s.rows then s else s.(rows := s.rows[oid := Row(size, ObjectKey(env.repo, oid), false)])
  {
  }

  /** An object put verifies the row of bytes that match, and empties the key otherwise. */
  lemma PutDoes(env: Env, s: Server, p: nat, oid: string, size: int, content: string)
    requires p !in s.puts && ValidOID(oid)
    ensures var s' := Do(env, Do(env, s, PutStream(p, oid, size, content)), PutFinish(p));
            var key := ObjectKey(env.repo, oid);
            var right := |content| == size && env.hash(content) == oid;
            s'.uploads == s.uploads && s'.verifications == s.verifications &&
            s'.puts == s.puts[p := PutDone(right && oid in s.rows)] &&
            s'.objects == (if right then s.objects[key := content] else s.objects - {key}) &&
            s'.rows == if right && oid in s.rows then s.rows[oid := Row(s.rows[oid].size, s.rows[oid].key, true)] else s.rows
  {
  }

  function TakenBack(s: Server, u: nat): Server
    requires u in s.uploads
  {
    var up := s.uploads[u];
    s.(objects := s.objects - {up.key}, uploads := s.uploads[u := Upload(up.key, up.size, up.content, LfsProtocol.Finished(false))])
  }

  /** A signed upload whose storage write fails takes back what it may have left. */
  lemma FailedWriteDoes(env: Env, s: Server, u: nat, leftover: Option<string>)
    requires u in s.uploads && s.uploads[u].phase == Chosen
    ensures Do(env, Do(env, s, UploadPutFails(u, leftover)), UploadDelete(u)) == TakenBack(s, u)
  {
    var key := s.uploads[u].key;
    if leftover.Some? {
      assert s.objects[key := leftover.value] - {key} == s.objects - {key};
    }
    assert InPhase(Do(env, s, UploadPutFails(u, leftover)), u, Failing);
  }

  /** One whose registry call fails takes back what it stored. */
  lemma FailedCallDoes(env: Env, s: Server, u: nat)
    requires u in s.uploads && s.uploads[u].phase in {Stored, Conflicted, Looking}
    ensures Do(env, Do(env, s, UploadError(u)), UploadDelete(u)) == TakenBack(s, u)
  {
    assert Do(env, s, UploadError(u)) == SetPhase(s, u, Failing);
  }

  // ------------------------------------------------- what verifications have seen

  /** Step i is where the verification read the row of its object, with this key. */
  ghost predicate ReadRow(env: Env, s: Server, steps: seq<Step>, v: nat, i: nat, oid: string, size: int, key: string) {
    i < |steps| && steps[i] == VerifyRead(v, oid, size) &&
    var rows := Run(env, s, steps[..i]).rows;
    oid in rows && rows[oid].key == key
  }

  /** Step j, later, is where it found bytes of the announced size under that key. */
  ghost predicate SawBytes(env: Env, s: Server, steps: seq<Step>, v: nat, i: nat, j: nat, oid: string, size: int, key: string) {
    i < j < |steps| && ReadRow(env, s, steps, v, i, oid, size, key) && steps[j] == VerifyStat(v) &&
    var objects := Run(env, s, steps[..j]).objects;
    key in objects && |objects[key]| == size
  }

  /** What the state of a verification tells about the run so far. */
  ghost predicate Justified(env: Env, s: Server, steps: seq<Step>, v: nat, job: Verification, rows: Rows) {
    match job
    case RowRead(oid, size, key) => exists i: nat :: ReadRow(env, s, steps, v, i, oid, size, key)
    case Statted(oid) => exists i: nat, j: nat, size, key :: SawBytes(env, s, steps, v, i, j, oid, size, key)
    case VerifyDone(ok) =>
      ok ==> exists i: nat, j: nat, oid, size, key :: SawBytes(env, s, steps, v, i, j, oid, size, key) && oid in rows && rows[oid].verified
  }

  /** How one step changes a verification: not at all, or in its turn. */
  ghost predicate Moves(before: Server, step: Step, v: nat, job: Verification, rows: Rows) {
    (v in before.verifications && job == before.verifications[v]) ||
    (v !in before.verifications && step.VerifyRead? && step.v == v &&
     if step.oid in before.rows then job == RowRead(step.oid, step.size, before.rows[step.oid].key) else job == VerifyDone(false)) ||
    (v in before.verifications && before.verifications[v].RowRead? && step == VerifyStat(v) &&
     var was := before.verifications[v];
     if was.key in before.objects && |before.objects[was.key]| == was.size then job == Statted(was.oid) else job == VerifyDone(false)) ||
    (v in before.verifications && before.verifications[v].Statted? && step == VerifySet(v) &&
     job == VerifyDone(before.verifications[v].oid in rows) && (job.ok ==> rows[before.verifications[v].oid].verified))
  }

  lemma ReadMoves(before: Server, w: nat, oid: string, size: int, v: nat)
    requires v in DoVerifyRead(before, w, oid, size).verifications
    ensures var after := DoVerifyRead(before, w, oid, size); Moves(before, VerifyRead(w, oid, size), v, after.verifications[v], after.rows)
  {
  }

  lemma StatMoves(before: Server, w: nat, v: nat)
    requires v in DoVerifyStat(before, w).verifications
    ensures var after := DoVerifyStat(before, w); Moves(before, VerifyStat(w), v, after.verifications[v], after.rows)
  {
  }

  lemma SetMoves(before: Server, w: nat, v: nat)
    requires v in DoVerifySet(before, w).verifications
    ensures var after := DoVerifySet(before, w); Moves(before, VerifySet(w), v, after.verifications[v], after.rows)
  {
  }

  lemma StepMoves(env: Env, before: Server, step: Step, v: nat)
    requires v in Do(env, before, step).verifications
    ensures Moves(before, step, v, Do(env, before, step).verifications[v], Do(env, before, step).rows)
  {
    match step
    case VerifyRead(w, oid, size) => ReadMoves(before, w, oid, size, v);
    case VerifyStat(w) => StatMoves(before, w, v);
    case VerifySet(w) => SetMoves(before, w, v);
    case _ => assert Do(env, before, step).verifications == before.verifications;
  }

  lemma {:induction false} SawEarlier(env: Env, s: Server, steps: seq<Step>, step: Step, v: nat, i: nat, j: nat, oid: string, size: int, key: string)
    requires SawBytes(env, s, steps, v, i, j, oid, size, key)
    ensures SawBytes(env, s, steps + [step], v, i, j, oid, size, key)
  {
    ReadEarlier(env, s, steps, step, v, i, oid, size, key);
    assert (steps + [step])[..j] == steps[..j];
  }

  lemma {:induction false} ReadEarlier(env: Env, s: Server, steps: seq<Step>, step: Step, v: nat, i: nat, oid: string, size: int, key: string)
    requires ReadRow(env, s, steps, v, i, oid, size, key)
    ensures ReadRow(env, s, steps + [step], v, i, oid, size, key)
  {
    assert (steps + [step])[..i] == steps[..i];
  }

  lemma {:induction false} StillJustified(env: Env, s: Server, steps: seq<Step>, step: Step, v: nat, job: Verification, before: Rows, rows: Rows)
    requires Justified(env, s, steps, v, job, before)
    requires forall oid :: oid in before && before[oid].verified ==> oid in rows && rows[oid].verified
    ensures Justified(env, s, steps + [step], v, job, rows)
  {
    match job
    case RowRead(oid, size, key) =>
      var i: nat :| ReadRow(env, s, steps, v, i, oid, size, key);
      ReadEarlier(env, s, steps, step, v, i, oid, size, key);
    case Statted(oid) =>
      var i: nat, j: nat, size, key :| SawBytes(env, s, steps, v, i, j, oid, size, key);
      SawEarlier(env, s, steps, step, v, i, j, oid, size, key);
    case VerifyDone(ok) =>
      if ok {
        var i: nat, j: nat, oid, size, key :| SawBytes(env, s, steps, v, i, j, oid, size, key) && oid in before && before[oid].verified;
        SawEarlier(env, s, steps, step, v, i, j, oid, size, key);
      }
  }

  lemma {:induction false} MoveJustified(env: Env, s: Server, steps: seq<Step>, step: Step, v: nat, job: Verification, rows: Rows)
    requires var before := Run(env, s, steps);
             Moves(before, step, v, job, rows) && (v in before.verifications ==> Justified(env, s, steps, v, before.verifications[v], before.rows)) &&
             forall oid :: oid in before.rows && before.rows[oid].verified ==> oid in rows && rows[oid].verified
    ensures Justified(env, s, steps + [step], v, job, rows)
  {
    var before, all := Run(env, s, steps), steps + [step];
    assert all[..|steps|] == steps;
    if v in before.verifications && job == before.verifications[v] {
      StillJustified(env, s, steps, step, v, job, before.rows, rows);
    } else if job.RowRead? {
      assert ReadRow(env, s, all, v, |steps|, job.oid, job.size, job.key);
    } else if job.Statted? {
      var was := before.verifications[v];
      var i: nat :| ReadRow(env, s, steps, v, i, was.oid, was.size, was.key);
      ReadEarlier(env, s, steps, step, v, i, was.oid, was.size, was.key);
      assert SawBytes(env, s, all, v, i, |steps|, was.oid, was.size, was.key);
    } else if job.ok {
      var oid := before.verifications[v].oid;
      var i: nat, j: nat, size, key :| SawBytes(env, s, steps, v, i, j, oid, size, key);
      SawEarlier(env, s, steps, step, v, i, j, oid, size, key);
    }
  }

  lemma VerifiedStay(env: Env, before: Server, step: Step)
    ensures var rows := Do(env, before, step).rows;
            forall oid :: oid in before.rows && before.rows[oid].verified ==> oid in rows && rows[oid].verified
  {
    var rows := Do(env, before, step).rows;
    forall oid | oid in before.rows && before.rows[oid].verified ensures oid in rows && rows[oid].verified {
      VerifiedRowStep(env, before, step, oid);
    }
  }

  /**
   * In every interleaving, a verification that got as far as flipping its row read that row and
   * then saw stored bytes of the announced size under its key; once it ended well the row is verified.
   */
  lemma {:induction false} VerifiedOnlyWhatIsStored(env: Env, s: Server, steps: seq<Step>, v: nat)
    requires v !in s.verifications && v in Run(env, s, steps).verifications
    ensures Justified(env, s, steps, v, Run(env, s, steps).verifications[v], Run(env, s, steps).rows)
  {
    if steps != [] {
      var init, step := steps[..|steps| - 1], steps[|steps| - 1];
      var before := Run(env, s, init);
      if v in before.verifications {
        VerifiedOnlyWhatIsStored(env, s, init, v);
      }
      StepMoves(env, before, step, v);
      VerifiedStay(env, before, step);
      MoveJustified(env, s, init, step, v, Do(env, before, step).verifications[v], Do(env, before, step).rows);
      assert steps == init + [step];
    }
  }
}
