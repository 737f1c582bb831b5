/** The client's data-access functions (lib/api.ts): which query parameters
    `getTodos` sends, which `exportTodos` sends, and the message of the error an
    unsuccessful response raises. The request itself is not modelled;
    percent-encoding of the query string is left to `URLSearchParams`. */
module ApiClient {
  import opened Strings
  import opened Domain

  /** A property value of the parameters object. */
  datatype ParamValue = Undefined | Null | Str(s: String) | Num(n: int)

  /** `value !== undefined && value !== null && value !== ""`: the number 0 is kept. */
  predicate IsSent(v: ParamValue) {
    !v.Undefined? && !v.Null? && v != Str([])
  }

  /** `String(value)` of a sent value. */
  function Render(v: ParamValue): (r: String)
    requires IsSent(v)
    ensures v.Str? ==> r == v.s
    ensures v.Num? ==> r == IntToString(v.n)
  {
    match v
    case Str(s) => s
    case Num(n) => IntToString(n)
  }

  type Query = seq<(String, String)>

  predicate DistinctKeys<V>(entries: seq<(String, V)>) {
    forall i, j :: 0 <= i < j < |entries| ==> entries[i].0 != entries[j].0
  }

  /** The parameters `getTodos` puts in its query, in the object's order. */
  function SentParams(params: seq<(String, ParamValue)>): (q: Query)
    ensures |q| <= |params|
  {
    if params == [] then []
    else
      var rest := SentParams(params[1..]);
      if IsSent(params[0].1) then [(params[0].0, Render(params[0].1))] + rest else rest
  }

  /** A key is in the query exactly when the object has it with a sent value,
      and its value is then `String(value)`. */
  lemma {:induction false} SentParamsMember(params: seq<(String, ParamValue)>, k: String, s: String)
    ensures (k, s) in SentParams(params) <==>
            exists i :: 0 <= i < |params| && params[i].0 == k && IsSent(params[i].1) && Render(params[i].1) == s
  {
    if params != [] {
      SentParamsMember(params[1..], k, s);
      var q := SentParams(params);
      if (k, s) in SentParams(params[1..]) {
        var i :| 0 <= i < |params[1..]| && params[1..][i].0 == k && IsSent(params[1..][i].1) && Render(params[1..][i].1) == s;
        assert params[i + 1] == params[1..][i];
      }
      if exists i :: 0 <= i < |params| && params[i].0 == k && IsSent(params[i].1) && Render(params[i].1) == s {
        var i :| 0 <= i < |params| && params[i].0 == k && IsSent(params[i].1) && Render(params[i].1) == s;
        if i > 0 {
          assert params[1..][i - 1] == params[i];
        }
      }
    }
  }

  /** Sending one more entry extends the query at its end. */
  lemma {:induction false} SentParamsSnoc(params: seq<(String, ParamValue)>, e: (String, ParamValue))
    ensures SentParams(params + [e]) == SentParams(params) + (if IsSent(e.1) then [(e.0, Render(e.1))] else [])
  {
    if params != [] {
      assert (params + [e])[1..] == params[1..] + [e];
      SentParamsSnoc(params[1..], e);
    }
  }

  /** `getTodos`: fill a `URLSearchParams` by walking the object's entries in
      order and setting each one whose value is sent. Keys of an object are
      distinct, so each `set` appends. */
  method GetTodosQuery(params: seq<(String, ParamValue)>) returns (q: Query)
    requires DistinctKeys(params)
    ensures q == SentParams(params)
  {
    q := [];
    var i := 0;
    while i < |params|
      invariant 0 <= i <= |params|
      invariant q == SentParams(params[..i])
    {
      var (key, value) := params[i];
      assert params[..i + 1] == params[..i] + [params[i]];
      SentParamsSnoc(params[..i], params[i]);
      if IsSent(value) {
        q := q + [(key, Render(value))];
      }
      i := i + 1;
    }
    assert params[..|params|] == params;
  }

  /** `exportTodos(format, userId)`: `format` always, `userId` only when truthy. */
  function ExportQuery(format: String, userId: Option<String>): (q: Query)
    ensures |q| >= 1 && q[0] == ("format", format)
    ensures |q| == 2 <==> Truthy(userId)
    ensures |q| == 2 ==> q[1] == ("userId", userId.value)
    ensures |q| <= 2
  {
    [("format", format)] + (if Truthy(userId) then [("userId", userId.value)] else [])
  }

  /** The body of an unsuccessful response: JSON that may carry an `error`
      field, or a body that does not parse (read as `{}`). */
  datatype ErrorBody = Unparsable | Parsed(error: Option<String>)

  /** The message of the error `apiRequest` throws: the body's `error` when it
      is truthy, otherwise `API error: <status>`. */
  function ErrorMessage(status: int, body: ErrorBody): (msg: String)
    ensures body.Parsed? && Truthy(body.error) ==> msg == body.error.value
    ensures !(body.Parsed? && Truthy(body.error)) ==> msg == "API error: " + IntToString(status)
  {
    match body
    case Unparsable => "API error: " + IntToString(status)
    case Parsed(e) => OrElse(e, "API error: " + IntToString(status))
  }

  /** `response.ok`. */
  predicate IsOk(status: int) {
    200 <= status <= 299
  }

  /** `apiRequest`: the parsed body of a successful response, or the error message. */
  datatype ApiResult<T> = Resolved(value: T) | Rejected(message: String)

  function ApiRequest<T>(status: int, ok: T, body: ErrorBody): (r: ApiResult<T>)
    ensures r.Resolved? <==> IsOk(status)
    ensures r.Resolved? ==> r.value == ok
    ensures r.Rejected? ==> r.message == ErrorMessage(status, body)
  {
    if IsOk(status) then Resolved(ok) else Rejected(ErrorMessage(status, body))
  }
}
