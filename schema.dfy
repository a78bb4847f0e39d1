/**
  What the marshmallow schemas do with one JSON member, and the shape of a
  `schema.load` outcome. A member is missing, an explicit `null`, or a value of
  the field's type (a value of the wrong type is a parse error and is not part
  of this model). A full load reports a missing `required` field; a partial
  load (`partial=True`, used by every update) does not. `null` is refused
  unless the field allows none. A supplied value must pass the field's
  validator. All field errors are collected together; the schema-level
  validator runs only when there are none, and the first rule it breaks is the
  only error reported.
*/
module Schema {

  datatype Option<T> = None | Some(value: T)

  /** One member of the request body. */
  datatype Field<T> = Absent | Null | Given(value: T)

  /** `schema.load`: the loaded dict, or the names of the fields in error (HTTP 422). */
  datatype Load<T> = Loaded(value: T) | Rejected(errors: set<string>)

  /** Whether the schema accepts one member. */
  predicate Accepts<T>(f: Field<T>, required: bool, allowNone: bool, partial: bool, valid: T -> bool) {
    match f
    case Absent => !required || partial
    case Null => allowNone
    case Given(v) => valid(v)
  }

  /** The error set contributed by one member: its name, or nothing. */
  function Check<T>(name: string, f: Field<T>, required: bool, allowNone: bool, partial: bool, valid: T -> bool): (e: set<string>)
    ensures e == {} <==> Accepts(f, required, allowNone, partial, valid)
    ensures e <= {name}
  {
    if Accepts(f, required, allowNone, partial, valid) then {} else {name}
  }

  /** The loaded dict holds a key exactly when the member was given a value. */
  function Present<T>(f: Field<T>): (o: Option<T>)
    ensures o.Some? <==> f.Given?
    ensures o.Some? ==> o.value == f.value
  {
    if f.Given? then Some(f.value) else None
  }

  /** `dict.get(key, default)`. */
  function GetOr<T>(o: Option<T>, default: T): T {
    if o.Some? then o.value else default
  }

  /** `validate_positive` of the model files: the value must be greater than zero. */
  predicate Positive(v: int) {
    v > 0
  }

  /** `validate.Length(min=2, max=255)`. */
  predicate NameLength(s: string) {
    2 <= |s| <= 255
  }

  /** A field with no validator of its own. */
  predicate AnyValue<T>(v: T) {
    true
  }
}

/** The response of a request, by HTTP status. */
module Http {

  datatype Response =
    | Created(id: int)               // 201, the new row's id
    | Done                           // 200
    | NotFound                       // 404
    | BadRequest                     // 400
    | Conflict                       // 409
    | Unprocessable(fields: set<string>)  // 422, the fields reported invalid
    | InternalError                  // 500, the request's work is rolled back
  {
    function Status(): (code: int)
      ensures 200 <= code < 600
    {
      match this
      case Created(_) => 201
      case Done => 200
      case NotFound => 404
      case BadRequest => 400
      case Conflict => 409
      case Unprocessable(_) => 422
      case InternalError => 500
    }
  }
}
