/** The LFS rows of one repository and the queries that change them. */
module LfsRegistry {

  /** A row for an object id; the uploader is not modelled. */
  datatype Row = Row(size: int, key: string, verified: bool)

  type Rows = map<string, Row>

  /** insert ... on conflict do nothing; the flag says whether a row came back. */
  function InsertRow(rows: Rows, oid: string, row: Row): (Rows, bool) {
    if oid in rows then (rows, false) else (rows[oid := row], true)
  }

  /** CreateLFSObject: a pending row. */
  function CreateLFSObject(rows: Rows, oid: string, size: int, key: string): (Rows, bool) {
    InsertRow(rows, oid, Row(size, key, false))
  }

  function CreateVerifiedLFSObject(rows: Rows, oid: string, size: int, key: string): (Rows, bool) {
    InsertRow(rows, oid, Row(size, key, true))
  }

  function SetLFSObjectVerified(rows: Rows, oid: string): (Rows, bool) {
    if oid in rows then (rows[oid := rows[oid].(verified := true)], true) else (rows, false)
  }

  /** VerifyLFSObjectAtKey: only a row that is not verified yet. */
  function VerifyLFSObjectAtKey(rows: Rows, oid: string, size: int, key: string): (Rows, bool) {
    if oid in rows && !rows[oid].verified then (rows[oid := Row(size, key, true)], true) else (rows, false)
  }
}
