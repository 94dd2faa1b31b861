/** Optional values, results, and the failures the library raises deliberately. */
module Outcomes {

  datatype Option<+T> = None | Some(value: T)

  datatype Result<+T> = Ok(value: T) | Err(error: Error)

  /** Why the boundary refused an item: the `reason` field of its audit record. */
  datatype Refusal =
    | WrongLocation
    | Trashed
    | Shortcut
    | AncestryUnprovable
    | OutsideSubtree
    | RootMismatch
    | RootNotAFolder
    | NotAFolder
    | NotADocument
    | NotDownloadable
    | ForeignProof

  datatype Error =
    | ScopeViolation(reason: Refusal)
    | DriveNotFound
    | EnumerationBudgetExceeded
    | EnumerationIncomplete
    | InvalidCursor
    | InvalidArgument
    | ExportTooLarge
    | ExtractionFailed
    | EmptyDocument
    | UnsupportedContentType
    | NotInitialized
}
