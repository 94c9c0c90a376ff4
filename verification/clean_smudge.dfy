/**
 * The clean filter of API commits, signed uploads, and reading files back: what goes into the
 * object database and LFS storage, and what resolving and streaming a blob gives.
 */
module CleanSmudge {
  import opened Text
  import opened Results
  import opened LfsPointer
  import opened LfsKeys
  import opened LfsRegistry

  /** The repository id, the two hashes, the size limit of raw blobs and whether LFS is on. */
  datatype Config = Config(repo: nat, blobId: string -> string, sha256: string -> string, threshold: nat, lfsEnabled: bool)
  {
    ghost predicate Valid() {
      threshold >= 1024 && forall content :: ValidOID(sha256(content))
    }
  }

  /** Blobs by id, LFS rows, and LFS storage. */
  datatype Files = Files(odb: map<string, string>, rows: Rows, objects: map<string, string>)

  datatype Uploaded = Uploaded(blobSHA: string, size: int)

  /** lfsOID is empty for a plain blob. */
  datatype FileRequest = FileRequest(blobSHA: string, size: int, lfsOID: string)

  datatype Object = Object(content: string, size: int)

  // --------------------------------------------------------- what the calls do

  function Written(cfg: Config, f: Files, data: string): (Files, Result<string>) {
    if |data| >= cfg.threshold then (f, Err(BlobTooLarge))
    else (f.(odb := f.odb[cfg.blobId(data) := data]), Ok(cfg.blobId(data)))
  }

  /** The object ends up verified under its own key, or its key is emptied. */
  function ObjectPut(cfg: Config, f: Files, oid: string, size: int, content: string): (Files, Result<()>) {
    if !ValidOID(oid) then (f, Err(InvalidOID))
    else
      var key := ObjectKey(cfg.repo, oid);
      if |content| != size || cfg.sha256(content) != oid then (f.(objects := f.objects - {key}), Err(ObjectMismatch))
      else
        var (rows, found) := SetLFSObjectVerified(f.rows, oid);
        (f.(objects := f.objects[key := content], rows := rows), if found then Ok(()) else Err(ObjectNotFound))
  }

  function ObjectStored(cfg: Config, f: Files, oid: string, size: int, content: string): (Files, Result<()>) {
    if !ValidOID(oid) then (f, Err(InvalidOID))
    else if oid in f.rows && f.rows[oid].verified then (f, Ok(()))
    else ObjectPut(cfg, f.(rows := CreateLFSObject(f.rows, oid, size, ObjectKey(cfg.repo, oid)).0), oid, size, content)
  }

  function Cleaned(cfg: Config, f: Files, sha: string, size: int): (Files, Result<string>) {
    if sha !in f.odb then (f, Err(UnknownBlob))
    else
      var content := f.odb[sha];
      if size <= LFS_POINTER_MAX_SIZE && PointerIn(content).Some? then (f, Ok(sha))
      else
        var oid := cfg.sha256(content);
        var (stored, r) := ObjectStored(cfg, f, oid, size, content);
        if r.Err? then (stored, Err(r.error))
        else if size < 0 then (stored, Err(ObjectMismatch))
        else Written(cfg, stored, Encode(Pointer(oid, size)))
  }

  /** A signed LFS upload with nobody else at work, under the fresh key it chose. */
  function LfsUploaded(cfg: Config, f: Files, key: string, size: int, content: string): (Files, Result<Pointer>) {
    if size <= 0 then (f, Err(InvalidUpload))
    else if |content| != size then (f.(objects := f.objects - {key}), Err(ObjectMismatch))
    else
      var oid := cfg.sha256(content);
      if oid !in f.rows || !f.rows[oid].verified then
        (f.(objects := f.objects[key := content], rows := f.rows[oid := Row(size, key, true)]), Ok(Pointer(oid, size)))
      else
        (f.(objects := f.objects - {key}), if f.rows[oid].size == size then Ok(Pointer(oid, size)) else Err(ObjectMismatch))
  }

  /** A signed upload of a given size: raw below the threshold, LFS from it on. */
  function SignedUploaded(cfg: Config, f: Files, key: string, size: int, content: string): (Files, Result<Uploaded>) {
    if size < 0 then (f, Err(InvalidUpload))
    else if size >= cfg.threshold then
      if !cfg.lfsEnabled then (f, Err(LFSNotEnabled))
      else
        var (stored, r) := LfsUploaded(cfg, f, key, size, content);
        if r.Err? then (stored, Err(r.error))
        else if r.value.size < 0 then (stored, Err(InvalidUpload))
        else
          var (written, sha) := Written(cfg, stored, Encode(r.value));
          (written, if sha.Ok? then Ok(Uploaded(sha.value, r.value.size)) else Err(sha.error))
    else if |content| != size then (f, Err(ObjectMismatch))
    else
      var (written, sha) := Written(cfg, f, content);
      (written, if sha.Ok? then Ok(Uploaded(sha.value, size)) else Err(sha.error))
  }

  function ObjectGot(f: Files, oid: string): Result<Object> {
    if !ValidOID(oid) then Err(InvalidOID)
    else if oid !in f.rows || !f.rows[oid].verified || f.rows[oid].key !in f.objects then Err(ObjectNotFound)
    else Ok(Object(f.objects[f.rows[oid].key], f.rows[oid].size))
  }

  /** What GET of a file's content comes to: the bytes, and the size announced for them. */
  function ReadBack(cfg: Config, f: Files, sha: string): Result<Object> {
    if sha !in f.odb then Err(UnknownBlob)
    else
      var blob := f.odb[sha];
      if PointerIn(blob).None? then Ok(Object(blob, |blob|))
      else if !cfg.lfsEnabled then Err(LFSNotEnabled)
      else ObjectGot(f, PointerIn(blob).value.oid)
  }

  class FileService {
    const cfg: Config
    var odb: map<string, string>
    var rows: Rows
    var objects: map<string, string>

    function State(): Files
      reads this
    {
      Files(odb, rows, objects)
    }

    constructor (cfg: Config)
      ensures this.cfg == cfg && State() == Files(map[], map[], map[])
    {
      this.cfg := cfg;
      odb, rows, objects := map[], map[], map[];
    }

    method WriteBlob(data: string) returns (r: Result<string>)
      modifies this`odb
      ensures (State(), r) == Written(cfg, old(State()), data)
      ensures |data| >= cfg.threshold ==> r == Err(BlobTooLarge) && odb == old(odb)
      ensures |data| < cfg.threshold ==> r == Ok(cfg.blobId(data)) && odb == old(odb)[cfg.blobId(data) := data]
    {
      if |data| >= cfg.threshold {
        return Err(BlobTooLarge);
      }
      odb := odb[cfg.blobId(data) := data];
      return Ok(cfg.blobId(data));
    }

    /** Streams the bytes to storage while hashing and counting them, then checks. */
    method PutObject(oid: string, size: int, content: string) returns (r: Result<()>)
      modifies this`rows, this`objects
      ensures (State(), r) == ObjectPut(cfg, old(State()), oid, size, content)
      ensures !ValidOID(oid) ==> r == Err(InvalidOID) && rows == old(rows) && objects == old(objects)
      ensures ValidOID(oid) && (|content| != size || cfg.sha256(content) != oid) ==>
                r == Err(ObjectMismatch) && rows == old(rows) && objects == old(objects) - {ObjectKey(cfg.repo, oid)}
      ensures ValidOID(oid) && |content| == size && cfg.sha256(content) == oid ==>
                objects == old(objects)[ObjectKey(cfg.repo, oid) := content] &&
                if oid in old(rows) then r == Ok(()) && rows == old(rows)[oid := Row(old(rows)[oid].size, old(rows)[oid].key, true)]
                else r == Err(ObjectNotFound) && rows == old(rows)
    {
      if !ValidOID(oid) {
        return Err(InvalidOID);
      }
      var key := ObjectKey(cfg.repo, oid);
      objects := objects[key := content];
      if |content| != size || cfg.sha256(content) != oid {
        objects := objects - {key};
        assert objects == old(objects) - {key};
        return Err(ObjectMismatch);
      }
      var updated := SetLFSObjectVerified(rows, oid);
      rows := updated.0;
      return if updated.1 then Ok(()) else Err(ObjectNotFound);
    }

    method StoreObject(oid: string, size: int, content: string) returns (r: Result<()>)
      modifies this`rows, this`objects
      ensures (State(), r) == ObjectStored(cfg, old(State()), oid, size, content)
      ensures !ValidOID(oid) ==> r == Err(InvalidOID)
      ensures !ValidOID(oid) || (oid in old(rows) && old(rows)[oid].verified) ==> rows == old(rows) && objects == old(objects)
      ensures ValidOID(oid) ==>
                var key := ObjectKey(cfg.repo, oid);
                var known := oid in old(rows) && old(rows)[oid].verified;
                var right := |content| == size && cfg.sha256(content) == oid;
                var row := if oid in old(rows) then old(rows)[oid] else Row(size, key, false);
                r == (if known || right then Ok(()) else Err(ObjectMismatch)) &&
                (!known ==> rows == old(rows)[oid := Row(row.size, row.key, right)] &&
                            objects == if right then old(objects)[key := content] else old(objects) - {key})
    {
      if !ValidOID(oid) {
        return Err(InvalidOID);
      }
      if oid in rows && rows[oid].verified {
        return Ok(());
      }
      rows := CreateLFSObject(rows, oid, size, ObjectKey(cfg.repo, oid)).0;
      r := PutObject(oid, size, content);
    }

    /** The clean filter given to ApplyCommit. */
    method Clean(sha: string, size: int) returns (r: Result<string>)
      modifies this
      ensures (State(), r) == Cleaned(cfg, old(State()), sha, size)
      ensures sha !in old(odb) ==> r == Err(UnknownBlob) && State() == old(State())
      ensures sha in old(odb) ==>
                var content := old(odb)[sha];
                if size <= 1024 && PointerIn(content).Some? then r == Ok(sha) && State() == old(State())
                else if r.Err? then odb == old(odb)
                else
                  size >= 0 && r.value == cfg.blobId(Encode(Pointer(cfg.sha256(content), size))) &&
                  odb == old(odb)[r.value := Encode(Pointer(cfg.sha256(content), size))]
    {
      if sha !in odb {
        return Err(UnknownBlob);
      }
      var content := odb[sha];
      if size <= LFS_POINTER_MAX_SIZE {
        var _, isPointer := ParseLFSPointer(content);
        if isPointer {
          return Ok(sha);
        }
      }
      var oid := cfg.sha256(content);
      var stored := StoreObject(oid, size, content);
      if stored.Err? {
        return Err(stored.error);
      }
      if size < 0 {
        return Err(ObjectMismatch);
      }
      r := WriteBlob(Encode(Pointer(oid, size)));
    }

    method LfsUpload(key: string, size: int, content: string) returns (r: Result<Pointer>)
      modifies this`rows, this`objects
      ensures (State(), r) == LfsUploaded(cfg, old(State()), key, size, content)
      ensures size <= 0 ==> r == Err(InvalidUpload) && rows == old(rows) && objects == old(objects)
      ensures size > 0 && |content| != size ==> r == Err(ObjectMismatch) && rows == old(rows) && objects == old(objects) - {key}
      ensures size > 0 && |content| == size ==>
                var oid := cfg.sha256(content);
                var was := old(rows);
                if oid !in was || !was[oid].verified then
                  r == Ok(Pointer(oid, size)) && rows == was[oid := Row(size, key, true)] && objects == old(objects)[key := content]
                else
                  r == (if was[oid].size == size then Ok(Pointer(oid, size)) else Err(ObjectMismatch)) &&
                  rows == was && objects == old(objects) - {key}
    {
      if size <= 0 {
        return Err(InvalidUpload);
      }
      assert objects[key := content] - {key} == objects - {key};
      objects := objects[key := content];
      if |content| != size {
        objects := objects - {key};
        assert objects == old(objects) - {key};
        return Err(ObjectMismatch);
      }
      var pointer := Pointer(cfg.sha256(content), |content|);
      var registered := RegisterUpload(pointer, key);
      if registered.Err? {
        objects := objects - {key};
        assert objects == old(objects) - {key};
        return Err(registered.error);
      }
      return Ok(pointer);
    }

    /** Insert a verified row, else verify a pending one, else accept an equal verified one. */
    method RegisterUpload(pointer: Pointer, key: string) returns (r: Result<()>)
      requires key in objects
      modifies this`rows, this`objects
      ensures var was := old(rows);
              if pointer.oid !in was || !was[pointer.oid].verified then
                r.Ok? && rows == was[pointer.oid := Row(pointer.size, key, true)] && objects == old(objects)
              else
                rows == was &&
                if was[pointer.oid].size == pointer.size then r.Ok? && objects == old(objects) - {key}
                else r == Err(ObjectMismatch) && objects == old(objects)
    {
      var inserted := CreateVerifiedLFSObject(rows, pointer.oid, pointer.size, key);
      rows := inserted.0;
      if inserted.1 {
        return Ok(());
      }
      var updated := VerifyLFSObjectAtKey(rows, pointer.oid, pointer.size, key);
      rows := updated.0;
      if updated.1 {
        return Ok(());
      }
      if !rows[pointer.oid].verified || rows[pointer.oid].size != pointer.size {
        return Err(ObjectMismatch);
      }
      objects := objects - {key};
      return Ok(());
    }

    method Upload(key: string, size: int, content: string) returns (r: Result<Uploaded>)
      modifies this
      ensures (State(), r) == SignedUploaded(cfg, old(State()), key, size, content)
      ensures size < 0 ==> r == Err(InvalidUpload) && State() == old(State())
      ensures 0 <= size < cfg.threshold && |content| != size ==> r == Err(ObjectMismatch) && State() == old(State())
      ensures 0 <= size < cfg.threshold && |content| == size ==>
                r == Ok(Uploaded(cfg.blobId(content), size)) && State() == old(State()).(odb := old(odb)[cfg.blobId(content) := content])
      ensures size >= cfg.threshold && !cfg.lfsEnabled ==> r == Err(LFSNotEnabled) && State() == old(State())
      ensures size >= cfg.threshold && |content| != size ==> r.Err? && odb == old(odb)
      ensures size >= cfg.threshold && r.Ok? ==>
                cfg.lfsEnabled && |content| == size && r.value.size == size &&
                r.value.blobSHA == cfg.blobId(Encode(Pointer(cfg.sha256(content), size))) &&
                odb == old(odb)[r.value.blobSHA := Encode(Pointer(cfg.sha256(content), size))]
    {
      if size < 0 {
        return Err(InvalidUpload);
      }
      if size >= cfg.threshold {
        if !cfg.lfsEnabled {
          return Err(LFSNotEnabled);
        }
        var pointer := LfsUpload(key, size, content);
        if pointer.Err? {
          return Err(pointer.error);
        }
        var sha := WriteBlob(Encode(pointer.value));
        return if sha.Ok? then Ok(Uploaded(sha.value, pointer.value.size)) else Err(sha.error);
      }
      if |content| != size {
        return Err(ObjectMismatch);
      }
      var sha := WriteBlob(content);
      return match sha case Ok(id) => Ok(Uploaded(id, size)) case Err(e) => Err(e);
    }

    /** What batch does for one object to upload: a pending row unless there is one, and whether bytes are wanted. */
    method BatchUpload(oid: string, size: int) returns (r: Result<bool>)
      modifies this`rows
      ensures !ValidOID(oid) ==> r == Err(InvalidOID) && rows == old(rows)
      ensures ValidOID(oid) ==> r == Ok(!(oid in old(rows) && old(rows)[oid].verified))
      ensures ValidOID(oid) ==> rows == if oid in old(rows) then old(rows) else old(rows)[oid := Row(size, ObjectKey(cfg.repo, oid), false)]
    {
      if !ValidOID(oid) {
        return Err(InvalidOID);
      }
      if oid in rows {
        return Ok(!rows[oid].verified);
      }
      rows := CreateLFSObject(rows, oid, size, ObjectKey(cfg.repo, oid)).0;
      return Ok(true);
    }

    /** Verifies the row of an object exactly when its key holds bytes of the announced size. */
    method Verify(oid: string, size: int) returns (r: Result<()>)
      modifies this`rows
      ensures !ValidOID(oid) ==> r == Err(InvalidOID)
      ensures ValidOID(oid) ==>
                r == if oid in old(rows) && old(rows)[oid].key in objects && |objects[old(rows)[oid].key]| == size then Ok(()) else Err(ObjectNotFound)
      ensures rows == if r.Ok? then old(rows)[oid := Row(old(rows)[oid].size, old(rows)[oid].key, true)] else old(rows)
    {
      if !ValidOID(oid) {
        return Err(InvalidOID);
      }
      if oid !in rows {
        return Err(ObjectNotFound);
      }
      var key := rows[oid].key;
      if key !in objects || |objects[key]| != size {
        return Err(ObjectNotFound);
      }
      rows := SetLFSObjectVerified(rows, oid).0;
      return Ok(());
    }

    method GetObject(oid: string) returns (r: Result<Object>)
      ensures r == ObjectGot(State(), oid)
      ensures !ValidOID(oid) ==> r == Err(InvalidOID)
      ensures ValidOID(oid) ==>
                r == if oid in rows && rows[oid].verified && rows[oid].key in objects
                     then Ok(Object(objects[rows[oid].key], rows[oid].size)) else Err(ObjectNotFound)
    {
      if !ValidOID(oid) {
        return Err(InvalidOID);
      }
      if oid !in rows || !rows[oid].verified {
        return Err(ObjectNotFound);
      }
      if rows[oid].key !in objects {
        return Err(ObjectNotFound);
      }
      return Ok(Object(objects[rows[oid].key], rows[oid].size));
    }

    /** resolveFile with the object required: only small blobs are looked at as pointers. */
    method PrepareFile(sha: string) returns (r: Result<FileRequest>)
      ensures match ReadBack(cfg, State(), sha)
              case Err(e) => r == Err(e)
              case Ok(o) => r.Ok? && PreparedFor(cfg, State(), sha, r.value)
      ensures r == if sha !in odb then Err(UnknownBlob)
                   else if PointerIn(odb[sha]).None? then Ok(FileRequest(sha, |odb[sha]|, ""))
                   else if !cfg.lfsEnabled then Err(LFSNotEnabled)
                   else
                     var oid := PointerIn(odb[sha]).value.oid;
                     if oid in rows && rows[oid].verified && rows[oid].key in objects then Ok(FileRequest(sha, rows[oid].size, oid))
                     else Err(ObjectNotFound)
    {
      if sha !in odb {
        return Err(UnknownBlob);
      }
      var blob := odb[sha];
      if |blob| == 0 || |blob| > LFS_POINTER_MAX_SIZE {
        return Ok(FileRequest(sha, |blob|, ""));
      }
      var ptr, ok := ParseLFSPointer(blob);
      if !ok {
        return Ok(FileRequest(sha, |blob|, ""));
      }
      if !cfg.lfsEnabled {
        return Err(LFSNotEnabled);
      }
      var got := GetObject(ptr.oid);
      if got.Err? {
        return Err(got.error);
      }
      return Ok(FileRequest(sha, got.value.size, ptr.oid));
    }

    /**
     * What StreamFile writes for a request prepared for a blob: exactly the bytes read back. For a
     * request prepared earlier, whatever it writes is still the content its blob or row holds, and
     * it fails when that is gone.
     */
    method StreamFile(req: FileRequest) returns (r: Result<string>)
      ensures forall sha :: PreparedFor(cfg, State(), sha, req) ==> r == Ok(ReadBack(cfg, State(), sha).value.content)
      ensures r.Ok? <==> if req.lfsOID == "" then req.blobSHA in odb else ObjectGot(State(), req.lfsOID).Ok?
      ensures r.Ok? && req.lfsOID == "" ==> odb[req.blobSHA] == r.value
      ensures r.Ok? && req.lfsOID != "" ==>
                ValidOID(req.lfsOID) && req.lfsOID in rows && rows[req.lfsOID].verified &&
                rows[req.lfsOID].key in objects && objects[rows[req.lfsOID].key] == r.value
    {
      if req.lfsOID != "" {
        var got := GetObject(req.lfsOID);
        return if got.Ok? then Ok(got.value.content) else Err(got.error);
      }
      if req.blobSHA !in odb {
        return Err(UnknownBlob);
      }
      return Ok(odb[req.blobSHA]);
    }
  }

  /** The request for a blob that can be read back: its size and, for a pointer, the object's id. */
  ghost predicate PreparedFor(cfg: Config, f: Files, sha: string, req: FileRequest) {
    ReadBack(cfg, f, sha).Ok? && req.blobSHA == sha && req.size == ReadBack(cfg, f, sha).value.size &&
    req.lfsOID == if PointerIn(f.odb[sha]).Some? then PointerIn(f.odb[sha]).value.oid else ""
  }

  // ---------------------------------------------------------------- theorems

  /** The pointer write never hits the blob limit. */
  lemma PointerFits(cfg: Config, f: Files, p: Pointer)
    requires cfg.Valid() && ValidPointer(p)
    ensures var (written, sha) := Written(cfg, f, Encode(p));
            sha.Ok? && written == f.(odb := f.odb[sha.value := Encode(p)]) && PointerIn(written.odb[sha.value]) == Some(p)
    ensures |Encode(p)| <= LFS_POINTER_MAX_SIZE
  {
    PointerRoundTrip(p);
  }

  /** Cleaning is idempotent: a pointer blob cleans to itself and changes nothing. */
  lemma CleanIsIdempotent(cfg: Config, f: Files, sha: string)
    requires cfg.Valid() && sha in f.odb && |f.odb[sha]| <= MAX_INT64
    ensures var (once, r) := Cleaned(cfg, f, sha, |f.odb[sha]|);
            r.Ok? && r.value in once.odb && Cleaned(cfg, once, r.value, |once.odb[r.value]|) == (once, r)
  {
    var content := f.odb[sha];
    if PointerIn(content).None? {
      CleanStores(cfg, f, sha);
    }
  }

  /** The filter returns the blob it was given or one below the limit. */
  lemma CleanKeepsLimit(cfg: Config, f: Files, sha: string, size: int)
    ensures var (after, r) := Cleaned(cfg, f, sha, size);
            r.Ok? ==> r.value == sha ||
                      exists content :: |content| < cfg.threshold && r.value == cfg.blobId(content) && r.value in after.odb &&
                                        after.odb[r.value] == content
  {
    var (after, r) := Cleaned(cfg, f, sha, size);
    if r.Ok? && r.value != sha {
      assert r.value == cfg.blobId(after.odb[r.value]);
    }
  }

  /** An existing row does not get in the way of reading this content back. */
  predicate RowFits(cfg: Config, f: Files, oid: string, content: string)
    requires ValidOID(oid)
  {
    oid in f.rows ==>
      var row := f.rows[oid];
      row.size == |content| &&
      ((row.key in f.objects && f.objects[row.key] == content) || (!row.verified && row.key == ObjectKey(cfg.repo, oid)))
  }

  /** Cleaning content that is no pointer always succeeds, and the blob it gives is its pointer. */
  lemma CleanStores(cfg: Config, f: Files, sha: string)
    requires cfg.Valid() && sha in f.odb && |f.odb[sha]| <= MAX_INT64 && PointerIn(f.odb[sha]).None?
    ensures var content := f.odb[sha];
            var pointer := Pointer(cfg.sha256(content), |content|);
            var (stored, r) := ObjectStored(cfg, f, pointer.oid, |content|, content);
            var (after, cleaned) := Cleaned(cfg, f, sha, |content|);
            r.Ok? && cleaned.Ok? && (after, cleaned) == Written(cfg, stored, Encode(pointer)) &&
            after == stored.(odb := stored.odb[cleaned.value := Encode(pointer)]) &&
            PointerIn(after.odb[cleaned.value]) == Some(pointer) && |Encode(pointer)| <= LFS_POINTER_MAX_SIZE
  {
    var content := f.odb[sha];
    var pointer := Pointer(cfg.sha256(content), |content|);
    PointerFits(cfg, ObjectStored(cfg, f, pointer.oid, |content|, content).0, pointer);
  }

  /**
   * Clean then smudge: for content that is not a pointer, cleaning succeeds, and reading the
   * resulting blob back gives the same bytes and size if and only if no earlier row for its
   * object id is in the way. Without an earlier row it always does.
   */
  lemma CleanThenReadBack(cfg: Config, f: Files, sha: string)
    requires cfg.Valid() && cfg.lfsEnabled && sha in f.odb && |f.odb[sha]| <= MAX_INT64 && PointerIn(f.odb[sha]).None?
    ensures var content := f.odb[sha];
            var (after, r) := Cleaned(cfg, f, sha, |content|);
            r.Ok? && (ReadBack(cfg, after, r.value) == Ok(Object(content, |content|)) <==> RowFits(cfg, f, cfg.sha256(content), content))
    ensures cfg.sha256(f.odb[sha]) !in f.rows ==> RowFits(cfg, f, cfg.sha256(f.odb[sha]), f.odb[sha])
  {
    CleanStores(cfg, f, sha);
  }

  /**
   * Signed uploads: content of the announced size that is not itself a pointer comes back with
   * the same bytes and size, whichever way the threshold routes it, if and only if no verified
   * row for its object id has lost or replaced its bytes. A verified row of another size makes
   * an LFS upload fail.
   */
  lemma {:induction false} UploadThenReadBack(cfg: Config, f: Files, key: string, size: int, content: string)
    requires cfg.Valid() && cfg.lfsEnabled && size == |content| <= MAX_INT64
    requires size < cfg.threshold ==> PointerIn(content).None?
    requires key !in f.objects && forall oid :: oid in f.rows ==> f.rows[oid].key != key
    ensures var (after, r) := SignedUploaded(cfg, f, key, size, content);
            var oid := cfg.sha256(content);
            var known := size >= cfg.threshold && oid in f.rows && f.rows[oid].verified;
            (r.Ok? <==> known ==> f.rows[oid].size == size) &&
            (r.Ok? ==>
              r.value.size == size &&
              (ReadBack(cfg, after, r.value.blobSHA) == Ok(Object(content, size)) <==>
               known ==> f.rows[oid].key in f.objects && f.objects[f.rows[oid].key] == content))
  {
    if size >= cfg.threshold {
      var (stored, r) := LfsUploaded(cfg, f, key, size, content);
      if r.Ok? {
        PointerFits(cfg, stored, r.value);
      }
    }
  }
}
