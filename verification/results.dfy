/** Results of operations that can fail, with the failures the Go code tells apart. */
module Results {
  datatype Error =
    | InvalidOps
    | InvalidRev
    | InvalidBranch
    | RevNotFound
    | PathNotFound
    | PathExists
    | PathBlocked
    | HeadMismatch
    | UnknownBlob
    | BlobTooLarge
    | NothingToCommit
    | LFSRequired
    | CleanFailed
    | InvalidOID
    | InvalidUpload
    | ObjectMismatch
    | ObjectNotFound
    | LFSNotEnabled

  datatype Result<+T> = Ok(value: T) | Err(error: Error)

  datatype Option<+T> = None | Some(value: T)
}
