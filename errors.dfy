/**
 * The error type of the typed layer (`MDBXDeriveError`) and the error type of the
 * storage engine's own decode hook.
 */
module Errors {
  import opened Base

  /** The payload of an error raised by an external codec; its contents are not modelled. */
  type Cause = string

  /** Failures reported by the storage engine (`libmdbx_remote::Error`), as far as this model needs them. */
  datatype MdbxError =
    | NotFound        // a named sub-database that does not exist was opened
    | Incompatible    // a sub-database was created again with different flags
    | BadDbi          // a handle that names no sub-database was used
    | MdbxCorrupted   // the engine's `Error::Corrupted`, raised by `TableObject::decode`

  /**
   * `MDBXDeriveError`. `IncorrectSchema` is raised by the derived key decoder but is
   * missing from the enum as written; `Bcs` stands for the conversion the BCS strategies
   * rely on, which the enum as written does not declare either.
   */
  datatype Error =
    | Corrupted
    | Json(cause: Cause)
    | Zstd(cause: Cause)
    | BincodeEncode(cause: Cause)
    | BincodeDecode(cause: Cause)
    | Bcs(cause: Cause)
    | Mdbx(engine: MdbxError)
    | IncorrectSchema(bytes: Bytes)
}
