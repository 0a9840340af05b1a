/** The domain-layer exceptions. In the program they form a class hierarchy
    under `DomainException`; here they are one record tagged by its concrete
    class, since the error handler dispatches on the exact class. */
module DomainExceptions {
  import opened Wrappers
  import opened Values

  /** The concrete class of a domain exception. `Base` is `DomainException` itself. */
  datatype Kind =
    | Base
    | Validation
    | Authentication
    | Authorization
    | EntityNotFound
    | Conflict
    | ExternalService

  datatype DomainException = DomainException(kind: Kind, message: string, details: Dict)

  /** `DomainException.__init__`: `details or {}`, so a missing or empty
      dictionary becomes the empty one and any other is kept as given. */
  function NewDomainException(kind: Kind, message: string, details: Option<Dict>): (e: DomainException)
    ensures e.kind == kind && e.message == message
    ensures details.Some? && details.value != map[] ==> e.details == details.value
    ensures details.None? || details.value == map[] ==> e.details == map[]
  {
    DomainException(kind, message, if details.Some? then details.value else map[])
  }

  function AuthenticationError(message: string): DomainException {
    NewDomainException(Authentication, message, None)
  }

  function AuthorizationError(message: string): DomainException {
    NewDomainException(Authorization, message, None)
  }

  function ConflictError(message: string): DomainException {
    NewDomainException(Conflict, message, None)
  }

  const DEFAULT_VALIDATION_MESSAGE := "Validation failed"

  /** `ValidationError(message=..., field_errors=...)`; `None` for an argument
      stands for "not passed". The details always hold exactly the key
      `"fields"`, mapping to the field errors or to the empty mapping. */
  function ValidationError(message: Option<string>, fieldErrors: Option<map<string, seq<string>>>): (e: DomainException)
    ensures e.kind == Validation
    ensures e.message == if message.Some? then message.value else DEFAULT_VALIDATION_MESSAGE
    ensures e.details.Keys == {"fields"}
    ensures e.details["fields"] == FieldErrors(if fieldErrors.Some? then fieldErrors.value else map[])
  {
    NewDomainException(Validation, message.GetOr(DEFAULT_VALIDATION_MESSAGE),
                       Some(map["fields" := FieldErrors(fieldErrors.GetOr(map[]))]))
  }

  function UpperAscii(c: char): char {
    if 'a' <= c <= 'z' then (c as int - 32) as char else c
  }

  function LowerAscii(c: char): char {
    if 'A' <= c <= 'Z' then (c as int + 32) as char else c
  }

  /** `str.capitalize` on ASCII text: first character upper case, the rest lower case. */
  function Capitalize(s: string): (r: string)
    ensures |r| == |s|
    ensures |s| > 0 ==> r[0] == UpperAscii(s[0])
    ensures forall i :: 0 < i < |s| ==> r[i] == LowerAscii(s[i])
  {
    if |s| == 0 then "" else [UpperAscii(s[0])] + seq(|s| - 1, i requires 0 <= i < |s| - 1 => LowerAscii(s[i + 1]))
  }

  /** Capitalizing is idempotent. */
  lemma CapitalizeIdempotent(s: string)
    ensures Capitalize(Capitalize(s)) == Capitalize(s)
  {
  }

  /** `EntityNotFoundError(entity_type, entity_id, message)`, with the id
      already rendered by `str`. The details always name the entity type and
      name the id exactly when one is given; an absent or empty message
      falls back to "<Type> not found". */
  function EntityNotFoundError(entityType: string, entityId: Option<string>, message: Option<string>): (e: DomainException)
    ensures e.kind == EntityNotFound
    ensures "entity_type" in e.details && e.details["entity_type"] == Str(entityType)
    ensures "entity_id" in e.details <==> entityId.Some?
    ensures entityId.Some? ==> e.details["entity_id"] == Str(entityId.value)
    ensures e.details.Keys <= {"entity_type", "entity_id"}
    ensures message.Some? && message.value != "" ==> e.message == message.value
    ensures message.None? || message.value == "" ==> e.message == Capitalize(entityType) + " not found"
  {
    var details := map["entity_type" := Str(entityType)];
    var details := if entityId.Some? then details["entity_id" := Str(entityId.value)] else details;
    var msg := if message.Some? && message.value != "" then message.value else Capitalize(entityType) + " not found";
    NewDomainException(EntityNotFound, msg, Some(details))
  }

  /** The message every "user" lookup failure carries. */
  lemma UserNotFoundMessage(id: string)
    ensures EntityNotFoundError("user", Some(id), None).message == "User not found"
  {
    assert Capitalize("user") == "User";
  }

  /** `ExternalServiceError(service, message, details)`: the details start as
      `{"service": service}` and the caller's details are merged over them,
      so a caller key (even `"service"`) wins. */
  function ExternalServiceError(service: string, message: string, details: Option<Dict>): (e: DomainException)
    ensures e.kind == ExternalService && e.message == message
    ensures details.None? ==> e.details == map["service" := Str(service)]
    ensures details.Some? ==> e.details.Keys == details.value.Keys + {"service"}
    ensures details.Some? ==> forall k :: k in details.value ==> e.details[k] == details.value[k]
    ensures details.Some? && "service" !in details.value ==> e.details["service"] == Str(service)
  {
    var merged := map["service" := Str(service)];
    var merged := if details.Some? && details.value != map[] then merged + details.value else merged;
    NewDomainException(ExternalService, message, Some(merged))
  }
}
