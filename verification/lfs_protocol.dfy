/**
 * The LFS upload protocol of one repository: signed uploads, batch registration, object puts
 * and verification, with rows and stored objects changing in separate, interleaved steps.
 */
module LfsProtocol {
  import opened Results
  import opened LfsPointer
  import opened LfsKeys
  import opened LfsRegistry

  /** The repository id and the SHA-256 of stored bytes as hex. */
  datatype Env = Env(repo: nat, hash: string -> string)

  /** How far a signed upload is. */
  datatype Phase = Chosen | Stored | Conflicted | Looking | Dropping | Failing | Finished(ok: bool)

  datatype Upload = Upload(key: string, size: int, content: string, phase: Phase)

  /** How far an object put is: its bytes are stored under the object's key, or it is over. */
  datatype ObjectPut = Streamed(oid: string, size: int, content: string) | PutDone(ok: bool)

  /** How far a verification is. */
  datatype Verification = RowRead(oid: string, size: int, key: string) | Statted(oid: string) | VerifyDone(ok: bool)

  type Objects = map<string, string>

  datatype Server = Server(
    rows: Rows,
    objects: Objects,
    uploads: map<nat, Upload>,
    puts: map<nat, ObjectPut>,
    verifications: map<nat, Verification>)

  /** A leftover is what a failed storage write may leave under the key. */
  datatype Step =
    | StartUpload(u: nat, id: string, size: int)
    | UploadPut(u: nat, content: string)
    | UploadPutFails(u: nat, leftover: Option<string>)
    | UploadCreate(u: nat)
    | UploadVerifyAtKey(u: nat)
    | UploadLook(u: nat)
    | UploadDelete(u: nat)
    | UploadError(u: nat)
    | CreateRow(oid: string, size: int)
    | PutStream(p: nat, oid: string, size: int, content: string)
    | PutFinish(p: nat)
    | VerifyRead(v: nat, oid: string, size: int)
    | VerifyStat(v: nat)
    | VerifySet(v: nat)

  ghost predicate HashesAreIds(env: Env) {
    forall content :: ValidOID(env.hash(content))
  }

  /** Keys under objects/. */
  ghost predicate IsUploadKey(env: Env, key: string) {
    exists id :: ValidOID(id) && key == UploadedObjectKey(env.repo, id)
  }

  predicate Referenced(rows: Rows, key: string) {
    exists oid :: oid in rows && rows[oid].key == key
  }

  /** A random key nobody has used. */
  predicate FreshKey(s: Server, key: string) {
    key !in s.objects && !Referenced(s.rows, key) && forall u :: u in s.uploads ==> s.uploads[u].key != key
  }

  predicate InPhase(s: Server, u: nat, phase: Phase) {
    u in s.uploads && s.uploads[u].phase == phase
  }

  function SetPhase(s: Server, u: nat, phase: Phase): Server
    requires u in s.uploads
  {
    s.(uploads := s.uploads[u := s.uploads[u].(phase := phase)])
  }

  // The steps of Upload and registerUpload, one storage or registry call each.

  function DoStart(env: Env, s: Server, u: nat, id: string, size: int): Server {
    var key := UploadedObjectKey(env.repo, id);
    if u in s.uploads || !ValidOID(id) || size <= 0 || !FreshKey(s, key) then s
    else s.(uploads := s.uploads[u := Upload(key, size, "", Chosen)])
  }

  function DoUploadPut(s: Server, u: nat, content: string): Server {
    if !InPhase(s, u, Chosen) then s
    else s.(objects := s.objects[s.uploads[u].key := content],
            uploads := s.uploads[u := s.uploads[u].(content := content, phase := Stored)])
  }

  function DoUploadPutFails(s: Server, u: nat, leftover: Option<string>): Server {
    if !InPhase(s, u, Chosen) then s
    else
      var after := SetPhase(s, u, Failing);
      if leftover.None? then after else after.(objects := s.objects[s.uploads[u].key := leftover.value])
  }

  function DoUploadCreate(env: Env, s: Server, u: nat): Server {
    if !InPhase(s, u, Stored) then s
    else
      var up := s.uploads[u];
      if |up.content| != up.size then SetPhase(s, u, Failing)
      else
        var (rows, inserted) := CreateVerifiedLFSObject(s.rows, env.hash(up.content), up.size, up.key);
        SetPhase(s.(rows := rows), u, if inserted then Finished(true) else Conflicted)
  }

  function DoUploadVerify(env: Env, s: Server, u: nat): Server {
    if !InPhase(s, u, Conflicted) then s
    else
      var up := s.uploads[u];
      var (rows, updated) := VerifyLFSObjectAtKey(s.rows, env.hash(up.content), up.size, up.key);
      SetPhase(s.(rows := rows), u, if updated then Finished(true) else Looking)
  }

  function DoUploadLook(env: Env, s: Server, u: nat): Server {
    if !InPhase(s, u, Looking) then s
    else
      var up := s.uploads[u];
      var oid := env.hash(up.content);
      var same := oid in s.rows && s.rows[oid].verified && s.rows[oid].size == up.size;
      SetPhase(s, u, if same then Dropping else Failing)
  }

  function DoUploadDelete(s: Server, u: nat): Server {
    if InPhase(s, u, Dropping) then SetPhase(s.(objects := s.objects - {s.uploads[u].key}), u, Finished(true))
    else if InPhase(s, u, Failing) then SetPhase(s.(objects := s.objects - {s.uploads[u].key}), u, Finished(false))
    else s
  }

  /** A registry call that fails for another reason than a missing row. */
  function DoUploadError(s: Server, u: nat): Server {
    if InPhase(s, u, Stored) || InPhase(s, u, Conflicted) || InPhase(s, u, Looking) then SetPhase(s, u, Failing) else s
  }

  // The steps of batchUpload, StoreObject, PutObject and Verify.

  function DoCreateRow(env: Env, s: Server, oid: string, size: int): Server {
    if !ValidOID(oid) then s else s.(rows := CreateLFSObject(s.rows, oid, size, ObjectKey(env.repo, oid)).0)
  }

  function DoPutStream(env: Env, s: Server, p: nat, oid: string, size: int, content: string): Server {
    if p in s.puts || !ValidOID(oid) then s
    else s.(objects := s.objects[ObjectKey(env.repo, oid) := content], puts := s.puts[p := Streamed(oid, size, content)])
  }

  function DoPutFinish(env: Env, s: Server, p: nat): Server {
    if p !in s.puts || !s.puts[p].Streamed? || !ValidOID(s.puts[p].oid) then s
    else
      var put := s.puts[p];
      if |put.content| != put.size || env.hash(put.content) != put.oid then
        s.(objects := s.objects - {ObjectKey(env.repo, put.oid)}, puts := s.puts[p := PutDone(false)])
      else
        var (rows, found) := SetLFSObjectVerified(s.rows, put.oid);
        s.(rows := rows, puts := s.puts[p := PutDone(found)])
  }

  function DoVerifyRead(s: Server, v: nat, oid: string, size: int): Server {
    if v in s.verifications || !ValidOID(oid) then s
    else if oid !in s.rows then s.(verifications := s.verifications[v := VerifyDone(false)])
    else s.(verifications := s.verifications[v := RowRead(oid, size, s.rows[oid].key)])
  }

  function DoVerifyStat(s: Server, v: nat): Server {
    if v !in s.verifications || !s.verifications[v].RowRead? then s
    else
      var job := s.verifications[v];
      var stored := job.key in s.objects && |s.objects[job.key]| == job.size;
      s.(verifications := s.verifications[v := if stored then Statted(job.oid) else VerifyDone(false)])
  }

  function DoVerifySet(s: Server, v: nat): Server {
    if v !in s.verifications || !s.verifications[v].Statted? then s
    else
      var (rows, found) := SetLFSObjectVerified(s.rows, s.verifications[v].oid);
      s.(rows := rows, verifications := s.verifications[v := VerifyDone(found)])
  }

  function Do(env: Env, s: Server, step: Step): Server {
    match step
    case StartUpload(u, id, size) => DoStart(env, s, u, id, size)
    case UploadPut(u, content) => DoUploadPut(s, u, content)
    case UploadPutFails(u, leftover) => DoUploadPutFails(s, u, leftover)
    case UploadCreate(u) => DoUploadCreate(env, s, u)
    case UploadVerifyAtKey(u) => DoUploadVerify(env, s, u)
    case UploadLook(u) => DoUploadLook(env, s, u)
    case UploadDelete(u) => DoUploadDelete(s, u)
    case UploadError(u) => DoUploadError(s, u)
    case CreateRow(oid, size) => DoCreateRow(env, s, oid, size)
    case PutStream(p, oid, size, content) => DoPutStream(env, s, p, oid, size, content)
    case PutFinish(p) => DoPutFinish(env, s, p)
    case VerifyRead(v, oid, size) => DoVerifyRead(s, v, oid, size)
    case VerifyStat(v) => DoVerifyStat(s, v)
    case VerifySet(v) => DoVerifySet(s, v)
  }

  function Run(env: Env, s: Server, steps: seq<Step>): Server {
    if steps == [] then s else Do(env, Run(env, s, steps[..|steps| - 1]), steps[|steps| - 1])
  }

  const EMPTY := Server(map[], map[], map[], map[], map[])

  // -------------------------------------------------------------- invariants

  /** The stored bytes of a row are the object it names. */
  predicate PointsAtContent(env: Env, objects: Objects, oid: string, row: Row) {
    row.key in objects && env.hash(objects[row.key]) == oid && |objects[row.key]| == row.size
  }

  ghost predicate RowSound(env: Env, objects: Objects, oid: string, row: Row) {
    ValidOID(oid) &&
    (row.key == ObjectKey(env.repo, oid) || (IsUploadKey(env, row.key) && row.verified && PointsAtContent(env, objects, oid, row)))
  }

  ghost predicate RowsSound(env: Env, rows: Rows, objects: Objects) {
    (forall oid :: oid in rows ==> RowSound(env, objects, oid, rows[oid])) &&
    (forall oid, oid' :: oid in rows && oid' in rows && rows[oid].key == rows[oid'].key ==> oid == oid')
  }

  ghost predicate UploadSound(env: Env, rows: Rows, objects: Objects, up: Upload) {
    IsUploadKey(env, up.key) &&
    match up.phase
    case Chosen => !Referenced(rows, up.key)
    case Stored => !Referenced(rows, up.key) && up.key in objects && objects[up.key] == up.content
    case Conflicted => !Referenced(rows, up.key) && up.key in objects && objects[up.key] == up.content && |up.content| == up.size
    case Looking => !Referenced(rows, up.key) && up.key in objects && objects[up.key] == up.content && |up.content| == up.size
    case Dropping => !Referenced(rows, up.key)
    case Failing => !Referenced(rows, up.key)
    case Finished(ok) => (up.key in objects <==> Referenced(rows, up.key)) && (Referenced(rows, up.key) ==> ok)
  }

  ghost predicate UploadsSound(env: Env, s: Server) {
    (forall u :: u in s.uploads ==> UploadSound(env, s.rows, s.objects, s.uploads[u])) &&
    (forall u, v :: u in s.uploads && v in s.uploads && s.uploads[u].key == s.uploads[v].key ==> u == v)
  }

  ghost predicate Sound(env: Env, s: Server) {
    RowsSound(env, s.rows, s.objects) && UploadsSound(env, s)
  }

  lemma ObjectKeyIsNoUploadKey(env: Env, oid: string, key: string)
    requires ValidOID(oid) && IsUploadKey(env, key)
    ensures key != ObjectKey(env.repo, oid)
  {
    var id :| ValidOID(id) && key == UploadedObjectKey(env.repo, id);
    KeysAreDistinct(env.repo, oid, env.repo, id);
  }

  /** Bytes under a key no row and no upload cares about may change freely. */
  lemma ObjectsElsewhere(env: Env, s: Server, objects: Objects, key: string)
    requires Sound(env, s)
    requires forall k :: k != key ==> (k in objects <==> k in s.objects) && (k in s.objects ==> objects[k] == s.objects[k])
    requires !IsUploadKey(env, key)
    ensures Sound(env, s.(objects := objects))
  {
    forall oid | oid in s.rows ensures RowSound(env, objects, oid, s.rows[oid]) {
    }
    forall u | u in s.uploads ensures UploadSound(env, s.rows, objects, s.uploads[u]) {
      assert s.uploads[u].key != key;
    }
  }

  /** Bytes under an unreferenced upload key are the business of its upload alone. */
  lemma OwnObject(env: Env, s: Server, u: nat, objects: Objects, up: Upload)
    requires Sound(env, s) && u in s.uploads && up.key == s.uploads[u].key
    requires !Referenced(s.rows, up.key)
    requires forall k :: k != up.key ==> (k in objects <==> k in s.objects) && (k in s.objects ==> objects[k] == s.objects[k])
    requires UploadSound(env, s.rows, objects, up)
    ensures Sound(env, s.(objects := objects, uploads := s.uploads[u := up]))
  {
    forall oid | oid in s.rows ensures RowSound(env, objects, oid, s.rows[oid]) {
      assert s.rows[oid].key != up.key;
    }
    forall v | v in s.uploads && v != u ensures UploadSound(env, s.rows, objects, s.uploads[v]) {
      assert s.uploads[v].key != up.key;
    }
  }

  /** An upload about to give its object a row. */
  ghost predicate ReadyForRow(env: Env, s: Server, u: nat) {
    Sound(env, s) && HashesAreIds(env) && u in s.uploads &&
    var up := s.uploads[u];
    !Referenced(s.rows, up.key) && up.key in s.objects && s.objects[up.key] == up.content && |up.content| == up.size &&
    (env.hash(up.content) in s.rows ==> !s.rows[env.hash(up.content)].verified)
  }

  function WithRow(env: Env, s: Server, up: Upload): Rows {
    s.rows[env.hash(up.content) := Row(up.size, up.key, true)]
  }

  lemma RowForUpload(env: Env, s: Server, u: nat)
    requires ReadyForRow(env, s, u)
    ensures Sound(env, SetPhase(s.(rows := WithRow(env, s, s.uploads[u])), u, Finished(true)))
  {
    RowsWithRow(env, s, u);
    forall v | v in s.uploads
      ensures UploadSound(env, WithRow(env, s, s.uploads[u]), s.objects, if v == u then s.uploads[u].(phase := Finished(true)) else s.uploads[v])
    {
      UploadWithRow(env, s, u, v);
    }
  }

  lemma RowsWithRow(env: Env, s: Server, u: nat)
    requires ReadyForRow(env, s, u)
    ensures RowsSound(env, WithRow(env, s, s.uploads[u]), s.objects)
  {
    assert UploadSound(env, s.rows, s.objects, s.uploads[u]);
    forall o | o in WithRow(env, s, s.uploads[u]) ensures RowSound(env, s.objects, o, WithRow(env, s, s.uploads[u])[o]) {
    }
  }

  lemma UploadWithRow(env: Env, s: Server, u: nat, v: nat)
    requires ReadyForRow(env, s, u) && v in s.uploads
    ensures UploadSound(env, WithRow(env, s, s.uploads[u]), s.objects, if v == u then s.uploads[u].(phase := Finished(true)) else s.uploads[v])
  {
    var up := s.uploads[u];
    var oid := env.hash(up.content);
    assert UploadSound(env, s.rows, s.objects, s.uploads[v]);
    ReferencesMove(env, s, oid, Row(up.size, up.key, true), s.uploads[v].key);
    if v == u {
      assert oid in WithRow(env, s, up) && WithRow(env, s, up)[oid].key == up.key;
    }
  }

  /** Replacing an unverified row, or adding one, changes no reference to other upload keys. */
  lemma ReferencesMove(env: Env, s: Server, oid: string, row: Row, key: string)
    requires RowsSound(env, s.rows, s.objects) && IsUploadKey(env, key) && ValidOID(oid)
    requires oid in s.rows ==> !s.rows[oid].verified
    ensures key != row.key ==> (Referenced(s.rows[oid := row], key) <==> Referenced(s.rows, key))
  {
    var rows := s.rows[oid := row];
    if oid in s.rows {
      assert RowSound(env, s.objects, oid, s.rows[oid]);
      ObjectKeyIsNoUploadKey(env, oid, key);
    }
    if Referenced(s.rows, key) {
      var o :| o in s.rows && s.rows[o].key == key;
      assert o in rows && rows[o] == s.rows[o];
    }
    if key != row.key && Referenced(rows, key) {
      var o :| o in rows && rows[o].key == key;
      assert o in s.rows && s.rows[o].key == key;
    }
  }

  lemma SetPhaseSound(env: Env, s: Server, u: nat, phase: Phase)
    requires Sound(env, s) && u in s.uploads
    requires UploadSound(env, s.rows, s.objects, s.uploads[u].(phase := phase))
    ensures Sound(env, SetPhase(s, u, phase))
  {
  }

  /** Flipping a row to verified moves no key. */
  lemma SetVerifiedSound(env: Env, s: Server, oid: string)
    requires Sound(env, s)
    ensures Sound(env, s.(rows := SetLFSObjectVerified(s.rows, oid).0))
  {
    var rows := SetLFSObjectVerified(s.rows, oid).0;
    forall o | o in rows ensures RowSound(env, s.objects, o, rows[o]) {
      assert RowSound(env, s.objects, o, s.rows[o]);
    }
    forall u | u in s.uploads ensures UploadSound(env, rows, s.objects, s.uploads[u]) {
      SameReferences(s.rows, oid, s.uploads[u].key);
      assert UploadSound(env, s.rows, s.objects, s.uploads[u]);
    }
  }

  lemma SameReferences(rows: Rows, oid: string, key: string)
    ensures Referenced(SetLFSObjectVerified(rows, oid).0, key) <==> Referenced(rows, key)
  {
    var after := SetLFSObjectVerified(rows, oid).0;
    if Referenced(rows, key) {
      var o :| o in rows && rows[o].key == key;
      assert o in after && after[o].key == key;
    }
    if Referenced(after, key) {
      var o :| o in after && after[o].key == key;
      assert o in rows && rows[o].key == key;
    }
  }

  /** A pending row under the object's own key. */
  lemma CreateRowSound(env: Env, s: Server, oid: string, size: int)
    requires Sound(env, s) && ValidOID(oid)
    ensures Sound(env, s.(rows := CreateLFSObject(s.rows, oid, size, ObjectKey(env.repo, oid)).0))
  {
    var row := Row(size, ObjectKey(env.repo, oid), false);
    if oid !in s.rows {
      var rows := s.rows[oid := row];
      forall o | o in s.rows ensures s.rows[o].key != row.key {
        assert RowSound(env, s.objects, o, s.rows[o]);
        if s.rows[o].key == ObjectKey(env.repo, o) {
          KeysAreDistinct(env.repo, oid, env.repo, o);
        } else {
          ObjectKeyIsNoUploadKey(env, oid, s.rows[o].key);
        }
      }
      forall u | u in s.uploads ensures UploadSound(env, rows, s.objects, s.uploads[u]) {
        ObjectKeyIsNoUploadKey(env, oid, s.uploads[u].key);
        ReferencesMove(env, s, oid, row, s.uploads[u].key);
      }
    }
  }

  lemma PutSound(env: Env, s: Server, u: nat, content: string)
    requires Sound(env, s)
    ensures Sound(env, DoUploadPut(s, u, content))
  {
    if InPhase(s, u, Chosen) {
      var up := s.uploads[u].(content := content, phase := Stored);
      assert UploadSound(env, s.rows, s.objects, s.uploads[u]);
      OwnObject(env, s, u, s.objects[up.key := content], up);
    }
  }

  lemma PutFailsSound(env: Env, s: Server, u: nat, leftover: Option<string>)
    requires Sound(env, s)
    ensures Sound(env, DoUploadPutFails(s, u, leftover))
  {
    if InPhase(s, u, Chosen) {
      var up := s.uploads[u].(phase := Failing);
      assert UploadSound(env, s.rows, s.objects, s.uploads[u]);
      OwnObject(env, s, u, if leftover.None? then s.objects else s.objects[up.key := leftover.value], up);
    }
  }

  lemma CreateSound(env: Env, s: Server, u: nat)
    requires Sound(env, s) && HashesAreIds(env)
    ensures Sound(env, DoUploadCreate(env, s, u))
  {
    if InPhase(s, u, Stored) {
      var up := s.uploads[u];
      assert UploadSound(env, s.rows, s.objects, up);
      if |up.content| != up.size {
        SetPhaseSound(env, s, u, Failing);
      } else if env.hash(up.content) !in s.rows {
        RowForUpload(env, s, u);
      } else {
        SetPhaseSound(env, s, u, Conflicted);
      }
    }
  }

  lemma VerifyAtKeySound(env: Env, s: Server, u: nat)
    requires Sound(env, s) && HashesAreIds(env)
    ensures Sound(env, DoUploadVerify(env, s, u))
  {
    if InPhase(s, u, Conflicted) {
      var oid := env.hash(s.uploads[u].content);
      assert UploadSound(env, s.rows, s.objects, s.uploads[u]);
      if oid in s.rows && !s.rows[oid].verified {
        RowForUpload(env, s, u);
      } else {
        SetPhaseSound(env, s, u, Looking);
      }
    }
  }

  lemma LookSound(env: Env, s: Server, u: nat)
    requires Sound(env, s)
    ensures Sound(env, DoUploadLook(env, s, u))
  {
  }

  lemma DeleteSound(env: Env, s: Server, u: nat)
    requires Sound(env, s)
    ensures Sound(env, DoUploadDelete(s, u))
  {
    if InPhase(s, u, Dropping) || InPhase(s, u, Failing) {
      var up := s.uploads[u];
      assert UploadSound(env, s.rows, s.objects, up);
      OwnObject(env, s, u, s.objects - {up.key}, up.(phase := Finished(up.phase.Dropping?)));
    }
  }

  lemma ErrorSound(env: Env, s: Server, u: nat)
    requires Sound(env, s)
    ensures Sound(env, DoUploadError(s, u))
  {
  }

  lemma StreamSound(env: Env, s: Server, p: nat, oid: string, size: int, content: string)
    requires Sound(env, s)
    ensures Sound(env, DoPutStream(env, s, p, oid, size, content))
  {
    if ValidOID(oid) {
      ObjectKeyAlone(env, oid);
      ObjectsElsewhere(env, s, s.objects[ObjectKey(env.repo, oid) := content], ObjectKey(env.repo, oid));
    }
  }

  lemma FinishSound(env: Env, s: Server, p: nat)
    requires Sound(env, s)
    ensures Sound(env, DoPutFinish(env, s, p))
  {
    if p in s.puts && s.puts[p].Streamed? && ValidOID(s.puts[p].oid) {
      var oid := s.puts[p].oid;
      ObjectKeyAlone(env, oid);
      ObjectsElsewhere(env, s, s.objects - {ObjectKey(env.repo, oid)}, ObjectKey(env.repo, oid));
      SetVerifiedSound(env, s, oid);
    }
  }

  lemma ObjectKeyAlone(env: Env, oid: string)
    requires ValidOID(oid)
    ensures !IsUploadKey(env, ObjectKey(env.repo, oid))
  {
    if IsUploadKey(env, ObjectKey(env.repo, oid)) {
      ObjectKeyIsNoUploadKey(env, oid, ObjectKey(env.repo, oid));
    }
  }

  predicate IsUploadStep(step: Step) {
    step.StartUpload? || step.UploadPut? || step.UploadPutFails? || step.UploadCreate? ||
    step.UploadVerifyAtKey? || step.UploadLook? || step.UploadDelete? || step.UploadError?
  }

  lemma DoSound(env: Env, s: Server, step: Step)
    requires Sound(env, s) && HashesAreIds(env)
    ensures Sound(env, Do(env, s, step))
  {
    if IsUploadStep(step) {
      DoUploadSound(env, s, step);
    } else {
      DoOtherSound(env, s, step);
    }
  }

  lemma DoUploadSound(env: Env, s: Server, step: Step)
    requires Sound(env, s) && HashesAreIds(env) && IsUploadStep(step)
    ensures Sound(env, Do(env, s, step))
  {
    match step
    case StartUpload(u, id, size) => StartSound(env, s, u, id, size);
    case UploadPut(u, content) => PutSound(env, s, u, content);
    case UploadPutFails(u, leftover) => PutFailsSound(env, s, u, leftover);
    case UploadCreate(u) => CreateSound(env, s, u);
    case UploadVerifyAtKey(u) => VerifyAtKeySound(env, s, u);
    case UploadLook(u) => LookSound(env, s, u);
    case UploadDelete(u) => DeleteSound(env, s, u);
    case UploadError(u) => ErrorSound(env, s, u);
  }

  lemma DoOtherSound(env: Env, s: Server, step: Step)
    requires Sound(env, s) && !IsUploadStep(step)
    ensures Sound(env, Do(env, s, step))
  {
    match step
    case CreateRow(oid, size) => CreateRowStepSound(env, s, oid, size);
    case PutStream(p, oid, size, content) => StreamSound(env, s, p, oid, size, content);
    case PutFinish(p) => FinishSound(env, s, p);
    case VerifyRead(v, oid, size) => VerifyReadSound(env, s, v, oid, size);
    case VerifyStat(v) => VerifyStatSound(env, s, v);
    case VerifySet(v) => VerifySetSound(env, s, v);
  }

  lemma CreateRowStepSound(env: Env, s: Server, oid: string, size: int)
    requires Sound(env, s)
    ensures Sound(env, DoCreateRow(env, s, oid, size))
  {
    if ValidOID(oid) {
      CreateRowSound(env, s, oid, size);
    }
  }

  /** Nothing is said about what the verifications know. */
  lemma VerificationsApart(env: Env, s: Server, verifications: map<nat, Verification>)
    requires Sound(env, s)
    ensures Sound(env, s.(verifications := verifications))
  {
  }

  lemma VerifyReadSound(env: Env, s: Server, v: nat, oid: string, size: int)
    requires Sound(env, s)
    ensures Sound(env, DoVerifyRead(s, v, oid, size))
  {
  }

  lemma VerifyStatSound(env: Env, s: Server, v: nat)
    requires Sound(env, s)
    ensures Sound(env, DoVerifyStat(s, v))
  {
  }

  lemma VerifySetSound(env: Env, s: Server, v: nat)
    requires Sound(env, s)
    ensures Sound(env, DoVerifySet(s, v))
  {
    if v in s.verifications && s.verifications[v].Statted? {
      var after := DoVerifySet(s, v);
      SetVerifiedSound(env, s, s.verifications[v].oid);
      VerificationsApart(env, s.(rows := after.rows), after.verifications);
    }
  }

  lemma StartSound(env: Env, s: Server, u: nat, id: string, size: int)
    requires Sound(env, s)
    ensures Sound(env, DoStart(env, s, u, id, size))
  {
    var key := UploadedObjectKey(env.repo, id);
    if u !in s.uploads && ValidOID(id) && size > 0 && FreshKey(s, key) {
      assert IsUploadKey(env, key);
      NewUploadSound(env, s, u, Upload(key, size, "", Chosen));
    }
  }

  lemma NewUploadSound(env: Env, s: Server, u: nat, up: Upload)
    requires Sound(env, s) && u !in s.uploads && UploadSound(env, s.rows, s.objects, up)
    requires forall v :: v in s.uploads ==> s.uploads[v].key != up.key
    ensures Sound(env, s.(uploads := s.uploads[u := up]))
  {
  }

  lemma {:induction false} RunSound(env: Env, s: Server, steps: seq<Step>)
    requires Sound(env, s) && HashesAreIds(env)
    ensures Sound(env, Run(env, s, steps))
  {
    if steps != [] {
      RunSound(env, s, steps[..|steps| - 1]);
      DoSound(env, Run(env, s, steps[..|steps| - 1]), steps[|steps| - 1]);
    }
  }

  // ---------------------------------------------------------------- theorems

  /**
   * In every interleaving, every row keyed under objects/ points at stored bytes whose hash is
   * its object id and whose length is its size.
   */
  lemma UploadedRowsPointAtContent(env: Env, steps: seq<Step>, oid: string)
    requires HashesAreIds(env)
    requires oid in Run(env, EMPTY, steps).rows && IsUploadKey(env, Run(env, EMPTY, steps).rows[oid].key)
    ensures var s := Run(env, EMPTY, steps);
            s.rows[oid].verified && PointsAtContent(env, s.objects, oid, s.rows[oid])
  {
    RunSound(env, EMPTY, steps);
    var s := Run(env, EMPTY, steps);
    assert RowSound(env, s.objects, oid, s.rows[oid]);
    ObjectKeyIsNoUploadKey(env, oid, s.rows[oid].key);
  }

  /** The rows that name a key. */
  function References(rows: Rows, key: string): set<string> {
    set oid | oid in rows && rows[oid].key == key
  }

  /** A finished upload's key is stored if and only if exactly one row references it. */
  lemma FinishedUploadsLeaveNoOrphans(env: Env, steps: seq<Step>, u: nat)
    requires HashesAreIds(env)
    requires u in Run(env, EMPTY, steps).uploads && Run(env, EMPTY, steps).uploads[u].phase.Finished?
    ensures var s := Run(env, EMPTY, steps);
            var key := s.uploads[u].key;
            |References(s.rows, key)| <= 1 && (key in s.objects <==> |References(s.rows, key)| == 1)
  {
    RunSound(env, EMPTY, steps);
    var s := Run(env, EMPTY, steps);
    var key := s.uploads[u].key;
    assert UploadSound(env, s.rows, s.objects, s.uploads[u]);
    if Referenced(s.rows, key) {
      var oid :| oid in s.rows && s.rows[oid].key == key;
      assert References(s.rows, key) == {oid};
    } else {
      assert References(s.rows, key) == {};
    }
  }

  /** A verified row never changes again, and no row is ever dropped. */
  lemma VerifiedRowStep(env: Env, s: Server, step: Step, oid: string)
    requires oid in s.rows
    ensures oid in Do(env, s, step).rows
    ensures s.rows[oid].verified ==> Do(env, s, step).rows[oid] == s.rows[oid]
  {
  }

  lemma {:induction false} VerifiedRowsStay(env: Env, s: Server, steps: seq<Step>, oid: string)
    requires oid in s.rows && s.rows[oid].verified
    ensures oid in Run(env, s, steps).rows && Run(env, s, steps).rows[oid] == s.rows[oid]
  {
    if steps != [] {
      VerifiedRowsStay(env, s, steps[..|steps| - 1], oid);
      VerifiedRowStep(env, Run(env, s, steps[..|steps| - 1]), steps[|steps| - 1], oid);
    }
  }

  /** An upload about to succeed has a verified row of its size for its content. */
  predicate RegisteredUpload(env: Env, rows: Rows, up: Upload) {
    up.phase.Dropping? || up.phase == Finished(true) ==>
      var oid := env.hash(up.content);
      oid in rows && rows[oid].verified && rows[oid].size == up.size
  }

  ghost predicate Registered(env: Env, s: Server) {
    forall u :: u in s.uploads ==> RegisteredUpload(env, s.rows, s.uploads[u])
  }

  lemma DoRegisters(env: Env, s: Server, step: Step)
    requires Registered(env, s)
    ensures Registered(env, Do(env, s, step))
  {
    var s' := Do(env, s, step);
    forall v | v in s'.uploads ensures RegisteredUpload(env, s'.rows, s'.uploads[v]) {
      if v in s.uploads {
        var oid := env.hash(s.uploads[v].content);
        if oid in s.rows {
          VerifiedRowStep(env, s, step, oid);
        }
      }
      UploadStep(env, s, step, v);
    }
  }

  /** A step leaves an upload alone, ends one that was dropping its copy, or leaves it registered. */
  ghost predicate StepsWell(env: Env, s: Server, s': Server, v: nat)
    requires v in s'.uploads
  {
    (v in s.uploads && s'.uploads[v] == s.uploads[v]) ||
    (v in s.uploads && s.uploads[v].phase.Dropping? && s'.uploads[v] == s.uploads[v].(phase := Finished(true))) ||
    RegisteredUpload(env, s'.rows, s'.uploads[v])
  }

  lemma CreateStepsWell(env: Env, s: Server, u: nat, v: nat)
    requires v in DoUploadCreate(env, s, u).uploads
    ensures StepsWell(env, s, DoUploadCreate(env, s, u), v)
  {
  }

  lemma VerifyStepsWell(env: Env, s: Server, u: nat, v: nat)
    requires v in DoUploadVerify(env, s, u).uploads
    ensures StepsWell(env, s, DoUploadVerify(env, s, u), v)
  {
  }

  lemma LookStepsWell(env: Env, s: Server, u: nat, v: nat)
    requires v in DoUploadLook(env, s, u).uploads
    ensures StepsWell(env, s, DoUploadLook(env, s, u), v)
  {
  }

  lemma UploadStep(env: Env, s: Server, step: Step, v: nat)
    requires v in Do(env, s, step).uploads
    ensures StepsWell(env, s, Do(env, s, step), v)
  {
    if IsUploadStep(step) {
      match step
      case StartUpload(u, id, size) => StartStepsWell(env, s, u, id, size, v);
      case UploadPut(u, content) => PutStepsWell(env, s, u, content, v);
      case UploadPutFails(u, leftover) => PutFailsStepsWell(env, s, u, leftover, v);
      case UploadCreate(u) => CreateStepsWell(env, s, u, v);
      case UploadVerifyAtKey(u) => VerifyStepsWell(env, s, u, v);
      case UploadLook(u) => LookStepsWell(env, s, u, v);
      case UploadDelete(u) => DeleteStepsWell(env, s, u, v);
      case UploadError(u) => ErrorStepsWell(env, s, u, v);
    } else {
      assert Do(env, s, step).uploads == s.uploads;
    }
  }

  lemma StartStepsWell(env: Env, s: Server, u: nat, id: string, size: int, v: nat)
    requires v in DoStart(env, s, u, id, size).uploads
    ensures StepsWell(env, s, DoStart(env, s, u, id, size), v)
  {
  }

  lemma PutStepsWell(env: Env, s: Server, u: nat, content: string, v: nat)
    requires v in DoUploadPut(s, u, content).uploads
    ensures StepsWell(env, s, DoUploadPut(s, u, content), v)
  {
  }

  lemma PutFailsStepsWell(env: Env, s: Server, u: nat, leftover: Option<string>, v: nat)
    requires v in DoUploadPutFails(s, u, leftover).uploads
    ensures StepsWell(env, s, DoUploadPutFails(s, u, leftover), v)
  {
  }

  lemma DeleteStepsWell(env: Env, s: Server, u: nat, v: nat)
    requires v in DoUploadDelete(s, u).uploads
    ensures StepsWell(env, s, DoUploadDelete(s, u), v)
  {
  }

  lemma ErrorStepsWell(env: Env, s: Server, u: nat, v: nat)
    requires v in DoUploadError(s, u).uploads
    ensures StepsWell(env, s, DoUploadError(s, u), v)
  {
  }

  /**
   * In every interleaving a successful upload has a verified row with exactly its size for its
   * content. Whether the bytes are there is another matter; see LfsRuns.
   */
  lemma {:induction false} SuccessfulUploadsAreRegistered(env: Env, steps: seq<Step>)
    ensures Registered(env, Run(env, EMPTY, steps))
  {
    if steps != [] {
      SuccessfulUploadsAreRegistered(env, steps[..|steps| - 1]);
      DoRegisters(env, Run(env, EMPTY, steps[..|steps| - 1]), steps[|steps| - 1]);
    }
  }
}
