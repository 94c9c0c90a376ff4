/** Files of a diff. */
module DiffTypes {
  import opened Results

  datatype DiffStatus = NoStatus | Added | Modified | Deleted | Renamed | Copied | TypeChanged

  datatype OmittedReason = NotOmitted | Binary | TooLarge | UnsupportedEncoding

  datatype DiffFile = DiffFile(
    status: DiffStatus,
    oldPath: string,
    newPath: string,
    oldBlobSHA: string,
    newBlobSHA: string,
    oldMode: string,
    newMode: string,
    additions: int,
    deletions: int,
    binary: bool,
    patch: Option<string>,
    omitted: OmittedReason)
}
