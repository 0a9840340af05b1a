/** The HTTP error responses: the fixed table from domain exception class to
    status and code, the request-validation handler that groups messages by
    field, and the catch-all handler. Only the error part of the response
    envelope is modelled. */
module ExceptionsHandler {
  import opened Wrappers
  import opened Values
  import opened Text
  import opened DomainExceptions
  import opened Failures

  /** The `error` part of the envelope, with the HTTP status. */
  datatype ErrorResponse = ErrorResponse(status: int, code: string, message: string, details: Option<Dict>)

  const INTERNAL_ERROR := "INTERNAL_ERROR"
  const INTERNAL_MESSAGE := "An internal server error occurred"

  /** `EXCEPTION_MAPPINGS`, looked up by the exception's exact class: the base
      class has no entry. */
  function Mapping(kind: Kind): (m: Option<(int, string)>)
    ensures m.None? <==> kind == Base
  {
    match kind
    case Validation => Some((422, "VALIDATION_ERROR"))
    case Authentication => Some((401, "UNAUTHORIZED"))
    case Authorization => Some((403, "FORBIDDEN"))
    case EntityNotFound => Some((404, "NOT_FOUND"))
    case Conflict => Some((409, "CONFLICT"))
    case ExternalService => Some((502, "EXTERNAL_SERVICE_ERROR"))
    case Base => None
  }

  /** The table gives every mapped class its own status and its own code. */
  lemma MappingIsInjective(k1: Kind, k2: Kind)
    requires Mapping(k1).Some? && Mapping(k2).Some? && k1 != k2
    ensures Mapping(k1).value.0 != Mapping(k2).value.0
    ensures Mapping(k1).value.1 != Mapping(k2).value.1
  {
  }

  /** `domain_exception_handler`: a mapped class answers with its status and
      code and passes message and details through unchanged; any other class
      is a 500 INTERNAL_ERROR with the generic message and no details. */
  function HandleDomainException(e: DomainException): (r: ErrorResponse)
    ensures Mapping(e.kind).Some? ==>
      r.status == Mapping(e.kind).value.0 && r.code == Mapping(e.kind).value.1
      && r.message == e.message && r.details == Some(e.details)
    ensures Mapping(e.kind).None? ==> r.status == 500 && r.code == INTERNAL_ERROR
                                      && r.message == INTERNAL_MESSAGE && r.details.None?
  {
    match Mapping(e.kind)
    case Some((status, code)) => ErrorResponse(status, code, e.message, Some(e.details))
    case None => ErrorResponse(500, INTERNAL_ERROR, INTERNAL_MESSAGE, None)
  }

  /** `generic_exception_handler`: 500 INTERNAL_ERROR with the generic message,
      whatever the exception. `exceptionText` is its text, which only goes
      to the log. */
  function HandleGeneric(exceptionText: string): (r: ErrorResponse)
    ensures r.status == 500 && r.code == INTERNAL_ERROR && r.message == INTERNAL_MESSAGE && r.details.None?
  {
    ErrorResponse(500, INTERNAL_ERROR, INTERNAL_MESSAGE, None)
  }

  /** Nothing of an unhandled exception reaches the client. */
  lemma GenericRevealsNothing(a: string, b: string)
    ensures HandleGeneric(a) == HandleGeneric(b)
  {
  }

  /** The response for anything raised: domain exceptions by the table,
      everything else (a repository exception that escaped, a Python error)
      by the catch-all. */
  function Respond(x: Raised): (r: ErrorResponse)
    ensures r.status in {401, 403, 404, 409, 422, 500, 502}
    ensures r.status == 500 <==> !(x.Domain? && x.domain.kind != Base)
    ensures r.status == 500 ==> r.message == INTERNAL_MESSAGE && r.details.None?
  {
    match x
    case Domain(e) => HandleDomainException(e)
    case Repository(e) => HandleGeneric(e.message)
    case Unhandled(t) => HandleGeneric(t)
  }

  // ------------------------------------------------- request validation

  /** One entry of `RequestValidationError.errors()`: its location, each part
      already rendered with `str`, and its message. */
  datatype ErrorItem = ErrorItem(loc: seq<string>, msg: string)

  /** `".".join(str(x) for x in loc[1:])`: the location without its first
      part (body, query, path...), joined with dots. */
  function FieldKey(loc: seq<string>): (k: string)
    ensures |loc| <= 1 ==> k == ""
    ensures |loc| == 2 ==> k == loc[1]
    ensures |loc| > 2 ==> k == loc[1] + "." + Join(loc[2..], ".")
  {
    if |loc| == 0 then "" else Join(loc[1..], ".")
  }

  /** The messages of the errors at `key`, in encounter order. */
  function MessagesAt(errors: seq<ErrorItem>, key: string): (ms: seq<string>)
    ensures |ms| <= |errors|
  {
    if |errors| == 0 then []
    else (if FieldKey(errors[0].loc) == key then [errors[0].msg] else []) + MessagesAt(errors[1..], key)
  }

  /** Appending an error adds its message at the end of its own key's list. */
  lemma {:induction false} MessagesAtSnoc(errors: seq<ErrorItem>, e: ErrorItem, key: string)
    ensures MessagesAt(errors + [e], key)
         == MessagesAt(errors, key) + (if FieldKey(e.loc) == key then [e.msg] else [])
  {
    if |errors| > 0 {
      assert (errors + [e])[1..] == errors[1..] + [e];
      MessagesAtSnoc(errors[1..], e, key);
    } else {
      assert errors + [e] == [e];
    }
  }

  /** A key has messages exactly when some error is located there. */
  lemma {:induction false} MessagesAtNonEmpty(errors: seq<ErrorItem>, key: string)
    ensures MessagesAt(errors, key) != [] <==> exists i :: 0 <= i < |errors| && FieldKey(errors[i].loc) == key
  {
    if |errors| > 0 {
      MessagesAtNonEmpty(errors[1..], key);
      if FieldKey(errors[0].loc) != key {
        assert (exists i :: 0 <= i < |errors| && FieldKey(errors[i].loc) == key)
           ==> (exists i :: 0 <= i < |errors[1..]| && FieldKey(errors[1..][i].loc) == key) by {
          if i :| 0 <= i < |errors| && FieldKey(errors[i].loc) == key {
            assert i > 0 && FieldKey(errors[1..][i - 1].loc) == key;
          }
        }
        assert (exists i :: 0 <= i < |errors[1..]| && FieldKey(errors[1..][i].loc) == key)
           ==> (exists i :: 0 <= i < |errors| && FieldKey(errors[i].loc) == key) by {
          if i :| 0 <= i < |errors[1..]| && FieldKey(errors[1..][i].loc) == key {
            assert FieldKey(errors[i + 1].loc) == key;
          }
        }
      }
    }
  }

  /** `grouped` holds, for every key at which some error is located, that
      key's messages in encounter order, and no other key. */
  ghost predicate Grouped(errors: seq<ErrorItem>, grouped: map<string, seq<string>>) {
    && (forall k :: k in grouped <==> exists i :: 0 <= i < |errors| && FieldKey(errors[i].loc) == k)
    && (forall k :: k in grouped ==> grouped[k] == MessagesAt(errors, k))
  }

  /** The `setdefault(field, []).append(msg)` loop. */
  method GroupFieldErrors(errors: seq<ErrorItem>) returns (grouped: map<string, seq<string>>)
    ensures Grouped(errors, grouped)
  {
    grouped := map[];
    var n := 0;
    while n < |errors|
      invariant 0 <= n <= |errors|
      invariant forall k :: k in grouped <==> MessagesAt(errors[..n], k) != []
      invariant forall k :: k in grouped ==> grouped[k] == MessagesAt(errors[..n], k)
    {
      var e := errors[n];
      var key := FieldKey(e.loc);
      assert errors[..n + 1] == errors[..n] + [e];
      forall k ensures MessagesAt(errors[..n + 1], k) == MessagesAt(errors[..n], k) + (if key == k then [e.msg] else []) {
        MessagesAtSnoc(errors[..n], e, k);
      }
      var sofar := if key in grouped then grouped[key] else [];
      grouped := grouped[key := sofar + [e.msg]];
      n := n + 1;
    }
    assert errors[..n] == errors;
    forall k ensures MessagesAt(errors, k) != [] <==> exists i :: 0 <= i < |errors| && FieldKey(errors[i].loc) == k {
      MessagesAtNonEmpty(errors, k);
    }
  }

  const REQUEST_VALIDATION_FAILED := "Request validation failed"

  /** `validation_exception_handler`: always 422 VALIDATION_ERROR "Request
      validation failed", with the grouped messages under `"fields"`. */
  method HandleValidation(errors: seq<ErrorItem>) returns (r: ErrorResponse)
    ensures r.status == 422 && r.code == "VALIDATION_ERROR" && r.message == REQUEST_VALIDATION_FAILED
    ensures r.details.Some? && r.details.value.Keys == {"fields"} && r.details.value["fields"].FieldErrors?
    ensures Grouped(errors, r.details.value["fields"].messages)
  {
    var grouped := GroupFieldErrors(errors);
    r := ErrorResponse(422, "VALIDATION_ERROR", REQUEST_VALIDATION_FAILED, Some(map["fields" := FieldErrors(grouped)]));
  }
}
