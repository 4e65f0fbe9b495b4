/** JSON values as the console receives them from `resp.json()` and
    `JSON.parse`, and the JavaScript tests it applies to them. */
module Json {

  /** A JSON value. An object keeps its members in the order
      `Object.keys` reports them. */
  datatype Value =
    | Null
    | Bool(b: bool)
    | Num(n: real)
    | Str(s: string)
    | Arr(elems: seq<Value>)
    | Obj(members: seq<(string, Value)>)

  /** `typeof v === "object"`, which holds for null as well. */
  predicate IsObjectType(v: Value) {
    v.Null? || v.Arr? || v.Obj?
  }

  /** JavaScript truthiness of a JSON value (NaN cannot come out of JSON). */
  predicate Truthy(v: Value) {
    match v
    case Null => false
    case Bool(b) => b
    case Num(n) => n != 0.0
    case Str(s) => s != ""
    case Arr(_) => true
    case Obj(_) => true
  }

  /** What parsing JSON text gives: a value, or the message of the
      `SyntaxError` it throws. */
  datatype Parsed = Parsed(value: Value) | SyntaxError(message: string)
}

/** The outcome of a `fetch` as the components see it. */
module Fetch {
  import opened Text
  import opened Json

  datatype Option<T> = None | Some(value: T)

  datatype Result<T> = Success(value: T) | Failure(message: string)

  /** A settled `fetch`: a response with its status and what `resp.json()`
      makes of its body, or a rejection (network failure) with its message. */
  datatype Outcome = Responded(status: nat, body: Parsed) | Rejected(message: string)

  /** `resp.ok`: a status in the range 200-299. */
  predicate Ok(status: nat) {
    200 <= status <= 299
  }

  /** The message of the error thrown for a response that is not ok. */
  function HttpError(status: nat): (m: string)
    ensures |m| > 5 && m[..5] == "HTTP "
    ensures forall i :: 5 <= i < |m| ==> IsDigit(m[i])
  {
    "HTTP " + NatToString(status)
  }

  /** The status can be read back from the message. */
  lemma HttpErrorStatus(status: nat)
    ensures DecimalValue(HttpError(status)[5..]) == status
  {
    assert HttpError(status)[5..] == NatToString(status);
    NatToStringRoundTrip(status);
  }

  /** Distinct statuses give distinct messages. */
  lemma HttpErrorInjective(s: nat, t: nat)
    ensures HttpError(s) == HttpError(t) ==> s == t
  {
    HttpErrorStatus(s);
    HttpErrorStatus(t);
  }

  /** The JSON value of a fetch, or the message of the error thrown on the
      way: the rejection, `HTTP <status>` for a response that is not ok, or
      the parse error of the body. */
  function JsonOf(o: Outcome): (r: Result<Value>)
    ensures r.Success? <==> o.Responded? && Ok(o.status) && o.body.Parsed?
    ensures r.Success? ==> r.value == o.body.value
    ensures o.Rejected? ==> r == Failure(o.message)
    ensures o.Responded? && !Ok(o.status) ==> r == Failure(HttpError(o.status))
    ensures o.Responded? && Ok(o.status) && o.body.SyntaxError? ==> r == Failure(o.body.message)
  {
    match o
    case Rejected(m) => Failure(m)
    case Responded(status, body) =>
      if !Ok(status) then Failure(HttpError(status))
      else match body
        case Parsed(v) => Success(v)
        case SyntaxError(m) => Failure(m)
  }

  /** The error of a fetch whose body is not read: the rejection, or
      `HTTP <status>` for a response that is not ok; none when it is ok. */
  function StatusError(o: Outcome): (r: Option<string>)
    ensures r == None <==> o.Responded? && Ok(o.status)
    ensures o.Rejected? ==> r == Some(o.message)
    ensures o.Responded? && !Ok(o.status) ==> r == Some(HttpError(o.status))
  {
    match o
    case Rejected(m) => Some(m)
    case Responded(status, _) => if Ok(status) then None else Some(HttpError(status))
  }
}
