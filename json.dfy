/**
 * Values decoded from YAML pipeline definitions and from JSON response
 * bodies, with Python's truthiness and `dict.get`.
 */
module Json {
  import opened Wrappers

  /** A decoded YAML/JSON value. `Null` is Python's `None`. */
  datatype Value =
    | Null
    | Bool(b: bool)
    | Int(i: int)
    | Float(r: real)
    | Str(s: string)
    | Array(items: seq<Value>)
    | Object(fields: map<string, Value>)

  /** The empty mapping `{}`. */
  const EmptyObject: Value := Object(map[])

  /** The falsy values of Python: `None`, `False`, `0`, `0.0`, `""`, `[]`
      and `{}`. */
  const Falsy: set<Value> :=
    {Null, Bool(false), Int(0), Float(0.0), Str(""), Array([]), EmptyObject}

  /** Python's `bool(v)`: exactly the seven falsy values are not truthy. */
  predicate Truthy(v: Value)
    ensures Truthy(v) <==> v !in Falsy
  {
    match v
    case Null => false
    case Bool(b) => b
    case Int(i) => i != 0
    case Float(r) => r != 0.0
    case Str(s) => s != ""
    case Array(items) => items != []
    case Object(fields) => fields != map[]
  }

  /** `v or {}`. */
  function OrEmpty(v: Value): (r: Value)
    ensures Truthy(v) ==> r == v
    ensures !Truthy(v) ==> r == EmptyObject
  {
    if Truthy(v) then v else EmptyObject
  }

  /** `d.get(key)` on a dict: a missing key reads as `None`. */
  function Get(fields: map<string, Value>, key: string): (r: Value)
    ensures key in fields ==> r == fields[key]
    ensures key !in fields ==> r == Null
  {
    if key in fields then fields[key] else Null
  }

  /** `a or b or ...` followed by a truthiness test: the first truthy value,
      or nothing when every value is falsy. */
  function FirstTruthy(vs: seq<Value>): (r: Option<Value>)
    ensures r.Some? ==> Truthy(r.value)
    ensures r.Some? ==> exists k :: 0 <= k < |vs| && vs[k] == r.value
                                   && forall j :: 0 <= j < k ==> !Truthy(vs[j])
    ensures r.None? <==> forall k :: 0 <= k < |vs| ==> !Truthy(vs[k])
  {
    if vs == [] then None
    else if Truthy(vs[0]) then Some(vs[0])
    else
      var r := FirstTruthy(vs[1..]);
      if r.Some? then
        var k :| 0 <= k < |vs[1..]| && vs[1..][k] == r.value
                 && forall j :: 0 <= j < k ==> !Truthy(vs[1..][j]);
        assert vs[k + 1] == r.value;
        r
      else r
  }
}

/**
 * The HTTP exchanges of the client, as values: the request it would send and
 * the outcome the server (or the transport) gives back.
 */
module Http {
  import opened Json
  import opened Wrappers

  /** The endpoints under `/api/engine/public/pipelines`. */
  datatype Endpoint =
    | Schema              // POST  .../schema
    | Create              // POST  ...
    | Update(alias: string) // PUT .../{alias}
    | Import              // POST  .../import
    | Start(alias: string)  // POST .../{alias}/start

  /** One request: where it goes, its JSON body (`None` sends no body), and
      the bearer credential of its `Authorization` header, if any. */
  datatype Request = Request(endpoint: Endpoint, body: Option<Value>, bearer: Option<string>)

  /** What `httpx.post`/`httpx.put` gives back: an exception raised by the
      transport, or a response whose `json()` either decodes or raises. */
  datatype HttpOutcome =
    | TransportError(message: string)
    | Response(status: int, json: Option<Value>, text: string)

  /** The error detail shown after a failed call: the decoded body when it is
      JSON, the raw text otherwise, or the transport's message. */
  datatype Detail = JsonDetail(body: Value) | TextDetail(text: string) | TransportDetail(message: string)

  /** `{"Authorization": f"Bearer {api_key}"}` only when the key is truthy. */
  function BearerIfSet(apiKey: Option<string>): (r: Option<string>)
    ensures r.Some? <==> apiKey.Some? && apiKey.value != ""
    ensures r.Some? ==> r.value == apiKey.value
  {
    if apiKey.Some? && apiKey.value != "" then apiKey else None
  }
}
