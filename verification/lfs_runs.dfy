/**
 * The service's calls as runs of the interleaved LFS protocol, and what the protocol means for a
 * client that uploaded something and wants it back.
 */
module LfsRuns {
  import opened Results
  import opened LfsPointer
  import opened LfsKeys
  import opened LfsRegistry
  import opened LfsProtocol
  import CleanSmudge

  /** The same rows and the same stored objects. */
  predicate Matches(s: Server, f: CleanSmudge.Files) {
    s.rows == f.rows && s.objects == f.objects
  }

  function EnvOf(cfg: CleanSmudge.Config): Env {
    Env(cfg.repo, cfg.sha256)
  }

  lemma {:induction false} RunMore(env: Env, s: Server, steps: seq<Step>, step: Step)
    ensures Run(env, s, steps + [step]) == Do(env, Run(env, s, steps), step)
  {
    assert (steps + [step])[..|steps|] == steps;
  }

  lemma RunOne(env: Env, s: Server, step: Step)
    ensures Run(env, s, [step]) == Do(env, s, step)
  {
    assert [step] == [] + [step];
    RunMore(env, s, [], step);
  }

  // -------------------------------------------------------------- object puts

  function PutSteps(p: nat, oid: string, size: int, content: string): seq<Step> {
    [PutStream(p, oid, size, content)] + [PutFinish(p)]
  }

  lemma PutRuns(env: Env, s: Server, p: nat, oid: string, size: int, content: string)
    ensures Run(env, s, PutSteps(p, oid, size, content)) == DoPutFinish(env, DoPutStream(env, s, p, oid, size, content), p)
  {
    RunOne(env, s, PutStream(p, oid, size, content));
    RunMore(env, s, [PutStream(p, oid, size, content)], PutFinish(p));
  }

  /** PutObject is a run of two protocol steps. */
  lemma PutObjectIsARun(cfg: CleanSmudge.Config, f: CleanSmudge.Files, s: Server, p: nat, oid: string, size: int, content: string)
    requires Matches(s, f) && p !in s.puts && ValidOID(oid)
    ensures var (after, r) := CleanSmudge.ObjectPut(cfg, f, oid, size, content);
            var final := Run(EnvOf(cfg), s, PutSteps(p, oid, size, content));
            Matches(final, after) && p in final.puts && final.puts[p] == PutDone(r.Ok?)
  {
    PutRuns(EnvOf(cfg), s, p, oid, size, content);
    var key := ObjectKey(cfg.repo, oid);
    assert s.objects[key := content] - {key} == s.objects - {key};
  }

  function StoreSteps(p: nat, oid: string, size: int, content: string): seq<Step> {
    [CreateRow(oid, size)] + PutSteps(p, oid, size, content)
  }

  /** StoreObject is a run: no step for a verified object, else a row and an object put. */
  lemma StoreObjectIsARun(cfg: CleanSmudge.Config, f: CleanSmudge.Files, s: Server, p: nat, oid: string, size: int, content: string)
    requires Matches(s, f) && p !in s.puts && ValidOID(oid)
    ensures var (after, r) := CleanSmudge.ObjectStored(cfg, f, oid, size, content);
            var done := oid in f.rows && f.rows[oid].verified;
            var final := Run(EnvOf(cfg), s, if done then [] else StoreSteps(p, oid, size, content));
            Matches(final, after) && (done ==> r.Ok?) && (!done ==> p in final.puts && final.puts[p] == PutDone(r.Ok?))
  {
    var env := EnvOf(cfg);
    if !(oid in f.rows && f.rows[oid].verified) {
      var created := Do(env, s, CreateRow(oid, size));
      var withRow := f.(rows := CreateLFSObject(f.rows, oid, size, ObjectKey(cfg.repo, oid)).0);
      PutObjectIsARun(cfg, withRow, created, p, oid, size, content);
      RunOne(env, s, CreateRow(oid, size));
      RunConcat(env, s, [CreateRow(oid, size)], PutSteps(p, oid, size, content));
    }
  }

  lemma {:induction false} RunConcat(env: Env, s: Server, a: seq<Step>, b: seq<Step>)
    ensures Run(env, s, a + b) == Run(env, Run(env, s, a), b)
  {
    if b == [] {
      assert a + b == a;
    } else {
      assert (a + b)[..|a + b| - 1] == a + b[..|b| - 1];
      RunConcat(env, s, a, b[..|b| - 1]);
    }
  }

  // ------------------------------------------------------------ signed uploads

  /** The calls of one signed upload, in order; those that are not its turn change nothing. */
  function UploadSteps(u: nat, id: string, size: int, content: string): seq<Step> {
    [StartUpload(u, id, size), UploadPut(u, content)] + FinishSteps(u)
  }

  function FinishSteps(u: nat): seq<Step> {
    [UploadCreate(u), UploadVerifyAtKey(u), UploadLook(u), UploadDelete(u)]
  }

  lemma RunFour(env: Env, s: Server, a: Step, b: Step, c: Step, d: Step)
    ensures Run(env, s, [a, b, c, d]) == Do(env, Do(env, Do(env, Do(env, s, a), b), c), d)
  {
    RunOne(env, s, a);
    RunMore(env, s, [a], b);
    RunMore(env, s, [a] + [b], c);
    RunMore(env, s, [a] + [b] + [c], d);
    assert [a] + [b] + [c] + [d] == [a, b, c, d];
  }

  lemma RunTwo(env: Env, s: Server, a: Step, b: Step)
    ensures Run(env, s, [a, b]) == Do(env, Do(env, s, a), b)
  {
    RunOne(env, s, a);
    RunMore(env, s, [a], b);
    assert [a] + [b] == [a, b];
  }

  function Finish(env: Env, s: Server, u: nat): Server {
    DoUploadDelete(DoUploadLook(env, DoUploadVerify(env, DoUploadCreate(env, s, u), u), u), u)
  }

  /** The last four steps of an upload, in terms of what each does. */
  lemma UploadDoes(env: Env, s: Server, u: nat)
    ensures Do(env, s, UploadCreate(u)) == DoUploadCreate(env, s, u) && Do(env, s, UploadVerifyAtKey(u)) == DoUploadVerify(env, s, u)
    ensures Do(env, s, UploadLook(u)) == DoUploadLook(env, s, u) && Do(env, s, UploadDelete(u)) == DoUploadDelete(s, u)
  {
  }

  lemma FinishIsRun(env: Env, s: Server, u: nat)
    ensures Run(env, s, FinishSteps(u)) == Finish(env, s, u)
  {
    RunFour(env, s, UploadCreate(u), UploadVerifyAtKey(u), UploadLook(u), UploadDelete(u));
    UploadDoes(env, s, u);
    UploadDoes(env, DoUploadCreate(env, s, u), u);
    UploadDoes(env, DoUploadVerify(env, DoUploadCreate(env, s, u), u), u);
    UploadDoes(env, DoUploadLook(env, DoUploadVerify(env, DoUploadCreate(env, s, u), u), u), u);
  }

  /** The bytes do not have the announced size, or an equal or unequal verified row is in the way. */
  lemma FinishDrops(env: Env, s: Server, u: nat)
    requires InPhase(s, u, Stored)
    requires var up := s.uploads[u]; var oid := env.hash(up.content); |up.content| != up.size || (oid in s.rows && s.rows[oid].verified)
    ensures var up := s.uploads[u];
            var ok := |up.content| == up.size && s.rows[env.hash(up.content)].size == up.size;
            Finish(env, s, u) == s.(objects := s.objects - {up.key}, uploads := s.uploads[u := up.(phase := Finished(ok))])
  {
    var up := s.uploads[u];
    var s1 := DoUploadCreate(env, s, u);
    if |up.content| != up.size {
      assert s1 == SetPhase(s, u, Failing);
      assert DoUploadVerify(env, s1, u) == s1 && DoUploadLook(env, s1, u) == s1;
    } else {
      assert s1 == SetPhase(s, u, Conflicted);
      var s2 := DoUploadVerify(env, s1, u);
      assert s2 == SetPhase(s, u, Looking);
    }
  }

  /** There was no verified row: the upload's key becomes the row's. */
  lemma FinishRegisters(env: Env, s: Server, u: nat)
    requires InPhase(s, u, Stored)
    requires var up := s.uploads[u]; var oid := env.hash(up.content); |up.content| == up.size && (oid in s.rows ==> !s.rows[oid].verified)
    ensures var up := s.uploads[u];
            Finish(env, s, u) == s.(rows := WithRow(env, s, up), uploads := s.uploads[u := up.(phase := Finished(true))])
  {
    var up := s.uploads[u];
    var s1 := DoUploadCreate(env, s, u);
    var done := s.(rows := WithRow(env, s, up), uploads := s.uploads[u := up.(phase := Finished(true))]);
    if env.hash(up.content) !in s.rows {
      assert s1 == done;
      assert DoUploadVerify(env, s1, u) == s1;
    } else {
      assert s1 == SetPhase(s, u, Conflicted);
      assert DoUploadVerify(env, s1, u) == done;
    }
    assert DoUploadLook(env, done, u) == done && DoUploadDelete(done, u) == done;
  }

  /** From the stored bytes on: registration, or clean-up. */
  lemma FinishesUpload(env: Env, s: Server, u: nat)
    requires InPhase(s, u, Stored)
    ensures var up := s.uploads[u];
            var oid := env.hash(up.content);
            var final := Run(env, s, FinishSteps(u));
            u in final.uploads && final.uploads[u].content == up.content &&
            if |up.content| != up.size then
              final.rows == s.rows && final.objects == s.objects - {up.key} && final.uploads[u].phase == Finished(false)
            else if oid !in s.rows || !s.rows[oid].verified then
              final.rows == WithRow(env, s, up) && final.objects == s.objects && final.uploads[u].phase == Finished(true)
            else
              final.rows == s.rows && final.objects == s.objects - {up.key} && final.uploads[u].phase == Finished(s.rows[oid].size == up.size)
  {
    FinishIsRun(env, s, u);
    var up := s.uploads[u];
    var oid := env.hash(up.content);
    if |up.content| == up.size && (oid in s.rows ==> !s.rows[oid].verified) {
      FinishRegisters(env, s, u);
    } else {
      FinishDrops(env, s, u);
    }
  }

  /** The bytes are stored under the fresh key. */
  function Begun(s: Server, u: nat, key: string, size: int, content: string): Server {
    s.(objects := s.objects[key := content], uploads := s.uploads[u := Upload(key, size, content, Stored)])
  }

  lemma BeginsUpload(env: Env, s: Server, u: nat, id: string, size: int, content: string)
    requires u !in s.uploads && ValidOID(id) && size > 0 && FreshKey(s, UploadedObjectKey(env.repo, id))
    ensures Run(env, s, UploadSteps(u, id, size, content)) ==
            Run(env, Begun(s, u, UploadedObjectKey(env.repo, id), size, content), FinishSteps(u))
  {
    var key := UploadedObjectKey(env.repo, id);
    RunTwo(env, s, StartUpload(u, id, size), UploadPut(u, content));
    RunConcat(env, s, [StartUpload(u, id, size), UploadPut(u, content)], FinishSteps(u));
    var started := DoStart(env, s, u, id, size);
    assert started == s.(uploads := s.uploads[u := Upload(key, size, "", Chosen)]);
    assert DoUploadPut(started, u, content) == Begun(s, u, key, size, content);
  }

  /** A signed upload is a run: same rows, same objects, and it ends as the call does. */
  lemma LfsUploadIsARun(cfg: CleanSmudge.Config, f: CleanSmudge.Files, s: Server, u: nat, id: string, size: int, content: string)
    requires Matches(s, f) && u !in s.uploads && ValidOID(id) && FreshKey(s, UploadedObjectKey(cfg.repo, id))
    ensures var (after, r) := CleanSmudge.LfsUploaded(cfg, f, UploadedObjectKey(cfg.repo, id), size, content);
            var final := Run(EnvOf(cfg), s, if size <= 0 then [] else UploadSteps(u, id, size, content));
            Matches(final, after) && (size <= 0 ==> r.Err?) &&
            (size > 0 ==> u in final.uploads && final.uploads[u].phase == Finished(r.Ok?))
  {
    var key := UploadedObjectKey(cfg.repo, id);
    if size > 0 {
      BeginsUpload(EnvOf(cfg), s, u, id, size, content);
      FinishesUpload(EnvOf(cfg), Begun(s, u, key, size, content), u);
      assert s.objects[key := content] - {key} == s.objects - {key};
    }
  }

  // ------------------------------------------------------------------ download

  /** What GET gives for an object id now. */
  function Download(s: Server, oid: string): Result<CleanSmudge.Object> {
    CleanSmudge.ObjectGot(CleanSmudge.Files(map[], s.rows, s.objects), oid)
  }

  /**
   * In every interleaving, a successful upload whose row is keyed under objects/ can be downloaded:
   * the bytes have the hash it was given and its size.
   */
  lemma UploadedContentDownloads(env: Env, steps: seq<Step>, u: nat)
    requires HashesAreIds(env)
    requires u in Run(env, EMPTY, steps).uploads && Run(env, EMPTY, steps).uploads[u].phase == Finished(true)
    ensures var s := Run(env, EMPTY, steps);
            var up := s.uploads[u];
            var oid := env.hash(up.content);
            oid in s.rows && s.rows[oid].verified && s.rows[oid].size == up.size &&
            (IsUploadKey(env, s.rows[oid].key) ==>
              Download(s, oid).Ok? && env.hash(Download(s, oid).value.content) == oid &&
              |Download(s, oid).value.content| == up.size == Download(s, oid).value.size)
  {
    SuccessfulUploadsAreRegistered(env, steps);
    var s := Run(env, EMPTY, steps);
    var oid := env.hash(s.uploads[u].content);
    assert RegisteredUpload(env, s.rows, s.uploads[u]);
    if IsUploadKey(env, s.rows[oid].key) {
      UploadedRowsPointAtContent(env, steps, oid);
    }
  }

  /** A put of the right bytes, then one of bytes that do not match, under the same object id. */
  function PutTwice(oid: string, content: string, size: int, wrong: string): seq<Step> {
    StoreSteps(0, oid, |content|, content) + PutSteps(1, oid, size, wrong)
  }

  /** The row that a first right put leaves, and the key that a second wrong one empties. */
  lemma EmptiedKey(env: Env, content: string, size: int, wrong: string)
    requires ValidOID(env.hash(content)) && (|wrong| != size || env.hash(wrong) != env.hash(content))
    ensures var oid := env.hash(content);
            var s := Run(env, EMPTY, PutTwice(oid, content, size, wrong));
            s.rows == map[oid := Row(|content|, ObjectKey(env.repo, oid), true)] && s.objects == map[] && s.uploads == map[]
  {
    var oid := env.hash(content);
    RightPut(env, content);
    RunConcat(env, EMPTY, StoreSteps(0, oid, |content|, content), PutSteps(1, oid, size, wrong));
    var s := Run(env, EMPTY, StoreSteps(0, oid, |content|, content));
    PutRuns(env, s, 1, oid, size, wrong);
  }

  lemma RightPut(env: Env, content: string)
    requires ValidOID(env.hash(content))
    ensures var oid := env.hash(content);
            var s := Run(env, EMPTY, StoreSteps(0, oid, |content|, content));
            s.rows == map[oid := Row(|content|, ObjectKey(env.repo, oid), true)] && s.objects == map[ObjectKey(env.repo, oid) := content] &&
            s.uploads == map[] && 1 !in s.puts
  {
    var oid := env.hash(content);
    var created := Do(env, EMPTY, CreateRow(oid, |content|));
    RunOne(env, EMPTY, CreateRow(oid, |content|));
    RunConcat(env, EMPTY, [CreateRow(oid, |content|)], PutSteps(0, oid, |content|, content));
    PutRuns(env, created, 0, oid, |content|, content);
  }

  /**
   * Without that key the claim fails, for any content, any mismatching bytes and any upload id: an
   * object put verifies the row, a second one empties its key, and a signed upload of the right
   * content then trusts the row, drops its own copy and succeeds, and the download fails.
   */
  lemma SuccessfulUploadCanBeGone(env: Env, content: string, size: int, wrong: string, id: string)
    requires ValidOID(env.hash(content)) && ValidOID(id) && content != ""
    requires |wrong| != size || env.hash(wrong) != env.hash(content)
    ensures var oid := env.hash(content);
            var s := Run(env, EMPTY, PutTwice(oid, content, size, wrong) + UploadSteps(0, id, |content|, content));
            0 in s.uploads && s.uploads[0].phase == Finished(true) && s.uploads[0].content == content &&
            oid in s.rows && s.rows[oid].verified && s.objects == map[] && Download(s, oid) == Err(ObjectNotFound)
  {
    var oid := env.hash(content);
    EmptiedKey(env, content, size, wrong);
    var s := Run(env, EMPTY, PutTwice(oid, content, size, wrong));
    RunConcat(env, EMPTY, PutTwice(oid, content, size, wrong), UploadSteps(0, id, |content|, content));
    DropsItsCopy(env, s, id, content);
  }

  lemma DropsItsCopy(env: Env, s: Server, id: string, content: string)
    requires ValidOID(env.hash(content)) && ValidOID(id) && content != "" && s.objects == map[] && s.uploads == map[]
    requires var oid := env.hash(content); s.rows == map[oid := Row(|content|, ObjectKey(env.repo, oid), true)]
    ensures var final := Run(env, s, UploadSteps(0, id, |content|, content));
            final.rows == s.rows && final.objects == map[] && 0 in final.uploads &&
            final.uploads[0].phase == Finished(true) && final.uploads[0].content == content
  {
    var key := UploadedObjectKey(env.repo, id);
    KeysAreDistinct(env.repo, env.hash(content), env.repo, id);
    assert FreshKey(s, key);
    BeginsUpload(env, s, 0, id, |content|, content);
    FinishesUpload(env, Begun(s, 0, key, |content|, content), 0);
    assert map[key := content] - {key} == map[];
  }
}
