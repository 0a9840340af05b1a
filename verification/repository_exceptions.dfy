/** Failures raised by the data-access layer. */
module RepositoryExceptions {
  import opened Values

  datatype RepositoryKind =
    | RecordNotFound      // the requested row does not exist
    | DuplicateRecord     // a uniqueness (or other integrity) constraint was violated
    | DatabaseOperation   // any other database-level failure

  datatype RepositoryException = RepositoryException(kind: RepositoryKind, message: string, details: Dict)
}
