/** Whatever an operation of the core can raise: a domain exception, a
    repository exception that nobody translated, or any other Python
    exception (named by its type), which only the generic handler sees. */
module Failures {
  import opened DomainExceptions
  import opened RepositoryExceptions

  datatype Raised =
    | Domain(domain: DomainException)
    | Repository(repository: RepositoryException)
    | Unhandled(pythonType: string)
}
