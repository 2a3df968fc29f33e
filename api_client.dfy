/**
  The web client's HTTP helpers (frontend/src/integrations/exchangeHouseClient.ts,
  and its copy frontend/src/services/api.ts): the snake_case to camelCase
  conversion applied to every response body, the error sanitiser of the
  response interceptor, and `handleError`. A JSON object's members are its
  `Object.keys` in order. JavaScript truthiness is written out: `null`,
  `false`, `0`, `""` and absent values are falsy.
*/
module ApiClient {
  import opened Common
  import opened Json

  /** The text of `snakeStr.replace(/_([a-z])/g, (_, letter) => letter.toUpperCase())`. */
  function ToCamelCase(s: string): (r: string)
    ensures |r| <= |s|
    ensures s == [] <==> r == []
    ensures |s| >= 2 && s[0] == '_' && IsLowerAscii(s[1]) ==> r != [] && r[0] == UpperChar(s[1])
    ensures s != [] && !(|s| >= 2 && s[0] == '_' && IsLowerAscii(s[1])) ==> r != [] && r[0] == s[0]
  {
    if s == [] then []
    else if |s| >= 2 && s[0] == '_' && IsLowerAscii(s[1]) then [UpperChar(s[1])] + ToCamelCase(s[2..])
    else [s[0]] + ToCamelCase(s[1..])
  }

  /** No "_" is followed by a lower-case ASCII letter. */
  predicate NoSnake(s: string) {
    forall i :: 0 <= i < |s| - 1 ==> !(s[i] == '_' && IsLowerAscii(s[i + 1]))
  }

  /** A string with nothing to replace comes back unchanged; in particular one without "_". */
  lemma {:induction false} NoSnakeUnchanged(s: string)
    requires NoSnake(s)
    ensures ToCamelCase(s) == s
  {
    if s != [] {
      assert NoSnake(s[1..]) by {
        forall i | 0 <= i < |s[1..]| - 1 ensures !(s[1..][i] == '_' && IsLowerAscii(s[1..][i + 1])) {
          assert s[1..][i] == s[i + 1] && s[1..][i + 1] == s[i + 2];
        }
      }
      NoSnakeUnchanged(s[1..]);
    }
  }

  lemma NoUnderscoreUnchanged(s: string)
    requires '_' !in s
    ensures ToCamelCase(s) == s
  {
    NoSnakeUnchanged(s);
  }

  /** The output never holds a "_" followed by a lower-case letter. */
  lemma {:induction false} CamelCaseHasNoSnake(s: string)
    ensures NoSnake(ToCamelCase(s))
  {
    if s != [] {
      var r := ToCamelCase(s);
      var tail := if |s| >= 2 && s[0] == '_' && IsLowerAscii(s[1]) then s[2..] else s[1..];
      CamelCaseHasNoSnake(tail);
      var x := ToCamelCase(tail);
      assert r == [r[0]] + x;
      if r[0] == '_' && x != [] {
        assert !IsLowerAscii(x[0]);
      }
      forall i | 0 <= i < |r| - 1 ensures !(r[i] == '_' && IsLowerAscii(r[i + 1])) {
        if i > 0 {
          assert r[i] == x[i - 1] && r[i + 1] == x[i];
        }
      }
    }
  }

  /** Converting twice is converting once. */
  lemma CamelCaseIdempotent(s: string)
    ensures ToCamelCase(ToCamelCase(s)) == ToCamelCase(s)
  {
    CamelCaseHasNoSnake(s);
    NoSnakeUnchanged(ToCamelCase(s));
  }

  const SnakeKey: string := "base_currency_code"
  const CamelKey: string := "baseCurrencyCode"

  lemma SnakeKeyParts()
    ensures SnakeKey == "base" + "_currency_code"
  {
  }

  lemma CamelKeyParts()
    ensures CamelKey == "base" + (['C'] + ("urrency" + (['C'] + "ode")))
  {
  }

  /** The key of the historical response names. */
  lemma CamelCaseExample()
    ensures ToCamelCase(SnakeKey) == CamelKey
  {
    var base, t2 := "base", "_currency_code";
    CurrencyCodeTail(t2);
    CamelCaseOfPlainPrefix(base, t2);
    SnakeKeyParts();
    CamelKeyParts();
  }

  lemma CodeTail(t1: string)
    requires t1 == "_code"
    ensures ToCamelCase(t1) == ['C'] + "ode"
  {
    var code := "ode";
    NoUnderscoreUnchanged(code);
    SnakeStep('c', code);
    assert t1 == ['_', 'c'] + code;
    assert UpperChar('c') == 'C';
  }

  lemma CurrencyCodeTail(t2: string)
    requires t2 == "_currency_code"
    ensures ToCamelCase(t2) == ['C'] + ("urrency" + (['C'] + "ode"))
  {
    var urrency, t1 := "urrency", "_code";
    CodeTail(t1);
    CamelCaseOfPlainPrefix(urrency, t1);
    SnakeStep('c', urrency + t1);
    CurrencyCodeSplit(t2, urrency, t1);
    assert UpperChar('c') == 'C';
  }

  lemma CurrencyCodeSplit(t2: string, urrency: string, t1: string)
    requires t2 == "_currency_code" && urrency == "urrency" && t1 == "_code"
    ensures t2 == ['_', 'c'] + (urrency + t1)
  {
  }

  /** A "_" and a lower-case letter become that letter upper-cased. */
  lemma SnakeStep(c: char, rest: string)
    requires IsLowerAscii(c)
    ensures ToCamelCase(['_', c] + rest) == [UpperChar(c)] + ToCamelCase(rest)
  {
    assert (['_', c] + rest)[2..] == rest;
  }

  /** A prefix without "_" is copied and the conversion carries on after it. */
  lemma {:induction false} CamelCaseOfPlainPrefix(p: string, rest: string)
    requires '_' !in p
    ensures ToCamelCase(p + rest) == p + ToCamelCase(rest)
  {
    if p != [] {
      var s := p + rest;
      assert s[0] == p[0] && p[0] in p && p[0] != '_';
      assert s[1..] == p[1..] + rest;
      assert '_' !in p[1..];
      CamelCaseOfPlainPrefix(p[1..], rest);
      assert ToCamelCase(s) == [p[0]] + ToCamelCase(s[1..]);
      assert p == [p[0]] + p[1..];
    } else {
      assert p + rest == rest;
    }
  }

  /** `toCamelCaseKeys(obj)` */
  function ToCamelCaseKeys(j: Json): (r: Json)
    ensures j.JArr? <==> r.JArr?
    ensures j.JObj? <==> r.JObj?
    ensures !j.JArr? && !j.JObj? ==> r == j
    ensures j.JArr? ==> |r.items| == |j.items|
                        && forall i :: 0 <= i < |j.items| ==> r.items[i] == ToCamelCaseKeys(j.items[i])
    decreases j, 1, 0
  {
    match j
    case JArr(items) => JArr(seq(|items|, i requires 0 <= i < |items| => ToCamelCaseKeys(items[i])))
    case JObj(ms) => JObj(ConvertMembers(j, [], 0))
    case _ => j
  }

  /** The `reduce` over the keys of object `j` from index `k`, into the accumulator `acc`. */
  function ConvertMembers(j: Json, acc: Members, k: nat): (r: Members)
    requires j.JObj? && k <= |j.members|
    ensures UniqueKeys(acc) ==> UniqueKeys(r)
    decreases j, 0, |j.members| - k
  {
    if k == |j.members| then acc
    else
      var key := j.members[k].0;
      var value := j.members[k].1;
      ConvertMembers(j, Assign(acc, ToCamelCase(key), ToCamelCaseKeys(value)), k + 1)
  }

  /** The value of the last member, from index `k` on, whose key converts to `c`. */
  function LastConvertingTo(ms: Members, k: nat, c: string): Option<Json>
    requires k <= |ms|
    decreases |ms| - k
  {
    if k == |ms| then None
    else
      var later := LastConvertingTo(ms, k + 1, c);
      if later.Some? then later else if ToCamelCase(ms[k].0) == c then Some(ms[k].1) else None
  }

  lemma {:induction false} ConvertMembersGet(j: Json, acc: Members, k: nat, c: string)
    requires j.JObj? && k <= |j.members|
    ensures var last := LastConvertingTo(j.members, k, c);
            Get(ConvertMembers(j, acc, k), c) == if last.Some? then Some(ToCamelCaseKeys(last.value)) else Get(acc, c)
    decreases |j.members| - k
  {
    if k < |j.members| {
      var key := j.members[k].0;
      var value := j.members[k].1;
      var acc' := Assign(acc, ToCamelCase(key), ToCamelCaseKeys(value));
      assert ConvertMembers(j, acc, k) == ConvertMembers(j, acc', k + 1);
      ConvertMembersGet(j, acc', k + 1, c);
      GetAfterAssign(acc, ToCamelCase(key), ToCamelCaseKeys(value), c);
    }
  }

  /**
    An object comes back with every key converted, each once, and the
    converted value of the last key that converts to it: on a collision
    the later key wins.
  */
  lemma CamelCaseKeysOfObject(ms: Members, c: string)
    ensures UniqueKeys(ToCamelCaseKeys(JObj(ms)).members)
    ensures var last := LastConvertingTo(ms, 0, c);
            Get(ToCamelCaseKeys(JObj(ms)).members, c) == if last.Some? then Some(ToCamelCaseKeys(last.value)) else None
  {
    ConvertMembersGet(JObj(ms), [], 0, c);
  }

  /** A key is present in the result exactly when some input key converts to it. */
  lemma {:induction false} LastConvertingToExists(ms: Members, k: nat, c: string)
    requires k <= |ms|
    ensures LastConvertingTo(ms, k, c).Some? <==> exists i :: k <= i < |ms| && ToCamelCase(ms[i].0) == c
    decreases |ms| - k
  {
    if k < |ms| {
      LastConvertingToExists(ms, k + 1, c);
      if ToCamelCase(ms[k].0) != c {
        assert forall i :: k <= i < |ms| && ToCamelCase(ms[i].0) == c ==> k + 1 <= i;
      }
    }
  }

  // ---------------------------------------------------------------------
  // Errors

  const DefaultMessage: string := "An unexpected error occurred"

  /** JavaScript truthiness of a JSON value. */
  predicate Truthy(v: Json) {
    match v
    case JNull => false
    case JBool(b) => b
    case JNum(n) => n != 0.0
    case JStr(s) => s != ""
    case _ => true
  }

  datatype HttpResponse = HttpResponse(status: int, data: Option<Json>)

  /** What a request can reject with. */
  datatype Thrown =
    | AxiosError(message: string, response: Option<HttpResponse>)
    | PlainError(message: string)                 // an `Error` instance
    | Sanitized(text: Json, status: int)          // the interceptor's `{ message, status }` object
    | OtherValue

  /** `error.response?.data?.message` */
  function DataMessage(response: Option<HttpResponse>): Option<Json> {
    if response.Some? && response.value.data.Some? && response.value.data.value.JObj?
    then Get(response.value.data.value.members, "message")
    else None
  }

  predicate TruthyOpt(v: Option<Json>) {
    v.Some? && Truthy(v.value)
  }

  /** The response interceptor's error handler, applied to an axios error. */
  function Sanitize(message: string, response: Option<HttpResponse>): (r: Thrown)
    ensures r.Sanitized?
    ensures TruthyOpt(DataMessage(response)) ==> r.text == DataMessage(response).value
    ensures !TruthyOpt(DataMessage(response)) && message != "" ==> r.text == JStr(message)
    ensures !TruthyOpt(DataMessage(response)) && message == "" ==> r.text == JStr(DefaultMessage)
    ensures r.status == if response.Some? && response.value.status != 0 then response.value.status else 500
  {
    var m := DataMessage(response);
    Sanitized(if TruthyOpt(m) then m.value else if message != "" then JStr(message) else JStr(DefaultMessage),
              if response.Some? && response.value.status != 0 then response.value.status else 500)
  }

  /** The string a JSON value becomes in a template or `new Error(...)`; only strings are modelled. */
  function Text(v: Json): string {
    if v.JStr? then v.s else DefaultMessage
  }

  /** `handleError(error)` as written. */
  function HandleError(e: Thrown): (r: string)
    ensures e.AxiosError? && TruthyOpt(DataMessage(e.response)) && DataMessage(e.response).value.JStr?
            ==> r == DataMessage(e.response).value.s
    ensures e.AxiosError? && !TruthyOpt(DataMessage(e.response)) ==> r == DefaultMessage
    ensures e.PlainError? ==> r == e.message
    ensures e.Sanitized? || e.OtherValue? ==> r == DefaultMessage
  {
    match e
    case AxiosError(_, response) =>
      var m := DataMessage(response);
      if TruthyOpt(m) then Text(m.value) else DefaultMessage
    case PlainError(message) => message
    case _ => DefaultMessage
  }

  /**
    As written, every failed request reaches the services' `handleError` as
    the sanitised plain object, which is neither an axios error nor an
    `Error`: its message is always replaced by the default text. The
    backend's errors carry `{"detail": ...}`, so the message kept is
    axios's own ("Request failed with status code 422"), and even that is
    lost; a body with a `message` fares no better.
  */
  lemma ServerMessageIsLost(axiosMessage: string, detail: string, message: string, status: int)
    requires axiosMessage != "" && message != ""
    ensures var e := Sanitize(axiosMessage, Some(HttpResponse(status, Some(JObj([("detail", JStr(detail))])))));
            e.text == JStr(axiosMessage) && HandleError(e) == DefaultMessage
    ensures var e := Sanitize(axiosMessage, Some(HttpResponse(status, Some(JObj([("message", JStr(message))])))));
            e.text == JStr(message) && HandleError(e) == DefaultMessage
  {
    var ds := [("detail", JStr(detail))];
    assert Get(ds, "message") == Get(ds[1..], "message") by { assert |"detail"| != |"message"|; }
    var ms := [("message", JStr(message))];
    assert Get(ms, "message") == Some(JStr(message));
  }

  /** `handleError` that also reads the sanitised object's message. */
  function HandleErrorCorrected(e: Thrown): (r: string)
    ensures !e.Sanitized? ==> r == HandleError(e)
  {
    match e
    case Sanitized(text, _) => if Truthy(text) then Text(text) else DefaultMessage
    case _ => HandleError(e)
  }

  /**
    With the correction, a request that fails through the interceptor is
    reported with the server's message when there is one, else with the
    axios error's own message, else with the default text.
  */
  lemma CorrectedKeepsMessage(message: string, response: Option<HttpResponse>)
    ensures var m := DataMessage(response);
            HandleErrorCorrected(Sanitize(message, response))
            == if TruthyOpt(m) then Text(m.value) else if message != "" then message else DefaultMessage
  {
  }
}
