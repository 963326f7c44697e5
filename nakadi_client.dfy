/** The Nakadi client (`NakadiWrapper`): how a call becomes an HTTP request,
    how the response is checked, and the two operations built on it,
    subscription statistics and cursor distances.

    The outside world is a parameter: `Env` carries the token lookup of the
    token manager, the client identity sent as User-Agent, and the server,
    a function from the request sent to the response received. */
module NakadiClient {
  import opened Values
  import Strings

  /** A client bound to a Nakadi base URL and the name of the token it
      presents. Neither changes after creation. */
  datatype Client = Client(url: string, tokenName: string)

  datatype Verb = Get | Post

  /** The name a verb has in error messages. */
  function VerbName(v: Verb): string
  {
    match v
    case Get => "get"
    case Post => "post"
  }

  /** A request body: a value serialised to JSON text (`json.dumps`, kept
      uninterpreted), or a value handed to the HTTP library unchanged. */
  datatype Payload = JsonText(value: Value) | AsIs(value: Value)

  datatype HttpRequest = HttpRequest(
    verb: Verb,
    url: string,
    headers: map<string, string>,
    body: Option<Payload>)

  /** A response: its status code, its body text, and the body parsed as
      JSON (`None` when parsing fails). */
  datatype Response = Response(status: nat, text: string, json: Option<Value>)

  datatype Env = Env(
    tokenOf: string -> string,
    userAgent: string,
    server: HttpRequest -> Response)

  /** The failures of a client call. `ExceptionInitTypeError` is the
      TypeError that constructing `NakadiException` raises as written: it
      carries neither status nor text. */
  datatype Error =
    | NakadiError(verb: Verb, url: string, status: nat, text: string)
    | InvalidJson(text: string)
    | BadCursors
    | MalformedResponse
    | ExceptionInitTypeError

  /** The status codes every operation of the client accepts. */
  const DefaultExpected: seq<nat> := [200]

  /** The part of an error message before the status code. */
  function MessageHead(verb: Verb, url: string): string
  {
    "Error " + VerbName(verb) + " nakadi url " + url + ": status code: "
  }

  /** The text of the exception raised for an unexpected status code. */
  function Message(verb: Verb, url: string, status: nat, text: string): (m: string)
    ensures |m| > |text| + 6 && m[|m| - |text|..] == text
    ensures |m| >= 6 + |VerbName(verb)| && m[..6 + |VerbName(verb)|] == "Error " + VerbName(verb)
  {
    var head := MessageHead(verb, url);
    var tail := Strings.Decimal(status) + ", response text: " + text;
    head + tail
  }

  lemma DigitsThenComma(d1: string, d2: string, t1: string, t2: string)
    requires Strings.AllDigits(d1) && Strings.AllDigits(d2)
    requires d1 + ", response text: " + t1 == d2 + ", response text: " + t2
    ensures d1 == d2 && t1 == t2
  {
    var glue := " response text: ";
    var rest1, rest2 := glue + t1, glue + t2;
    assert d1 + ", response text: " + t1 == d1 + [','] + rest1;
    assert d2 + ", response text: " + t2 == d2 + [','] + rest2;
    assert ',' !in d1 && ',' !in d2;
    Strings.HeadBeforeFirst(d1, ',', rest1);
    Strings.HeadBeforeFirst(d2, ',', rest2);
    assert t1 == rest1[|glue|..] && t2 == rest2[|glue|..];
  }

  /** Given the URL, the message of a Nakadi error tells its verb, status
      code and response text: two errors for the same URL with the same
      message are the same error. */
  lemma MessageIdentifiesError(verb1: Verb, verb2: Verb, url: string, status1: nat, status2: nat, text1: string, text2: string)
    requires Message(verb1, url, status1, text1) == Message(verb2, url, status2, text2)
    ensures verb1 == verb2 && status1 == status2 && text1 == text2
  {
    var m := Message(verb1, url, status1, text1);
    assert verb1 == verb2 by {
      assert m[6] == ("Error " + VerbName(verb1))[6] == VerbName(verb1)[0];
      assert m[6] == ("Error " + VerbName(verb2))[6] == VerbName(verb2)[0];
    }
    var head := MessageHead(verb1, url);
    var d1, d2 := Strings.Decimal(status1), Strings.Decimal(status2);
    var rest1 := d1 + ", response text: " + text1;
    var rest2 := d2 + ", response text: " + text2;
    assert m == head + rest1 && m == head + rest2;
    assert rest1 == m[|head|..] == rest2;
    DigitsThenComma(d1, d2, text1, text2);
    Strings.DecimalRoundTrip(status1);
    Strings.DecimalRoundTrip(status2);
  }

  /** The body `__request` sends for non-None data: containers are
      serialised to JSON, anything else goes as it is. */
  function Encode(data: Value): (p: Payload)
    ensures p.value == data
    ensures p.JsonText? <==> IsContainer(data)
  {
    if IsContainer(data) then JsonText(data) else AsIs(data)
  }

  /** The request `__request` sends for `path` and `data`. */
  function Shape(client: Client, path: string, data: Value, env: Env): (req: HttpRequest)
    ensures req.url == client.url + "/" + path
    ensures req.verb == Get <==> data.VNone?
    ensures "Authorization" in req.headers
         && req.headers["Authorization"] == "Bearer " + env.tokenOf(client.tokenName)
    ensures "User-Agent" in req.headers && req.headers["User-Agent"] == env.userAgent
    ensures data.VNone? ==> req.headers.Keys == {"Authorization", "User-Agent"} && req.body == None
    ensures !data.VNone? ==>
      && req.headers.Keys == {"Authorization", "User-Agent", "Content-Type"}
      && req.headers["Content-Type"] == "application/json"
      && req.body == Some(Encode(data))
  {
    var headers := map[
      "Authorization" := "Bearer " + env.tokenOf(client.tokenName),
      "User-Agent" := env.userAgent];
    var url := client.url + "/" + path;
    if data.VNone? then HttpRequest(Get, url, headers, None)
    else HttpRequest(Post, url, headers["Content-Type" := "application/json"], Some(Encode(data)))
  }

  /** What `__request` makes of the response to `req`: the parsed body when
      the status code is expected, otherwise a Nakadi error. */
  function Check(req: HttpRequest, expected: seq<nat>, response: Response): (r: Result<Value, Error>)
    ensures r.Ok? <==> response.status in expected && response.json.Some?
    ensures r.Ok? ==> r.value == response.json.value
    ensures response.status !in expected <==> r == Err(NakadiError(req.verb, req.url, response.status, response.text))
    ensures r.Err? && response.status in expected ==> r.error == InvalidJson(response.text)
  {
    if response.status !in expected then Err(NakadiError(req.verb, req.url, response.status, response.text))
    else if response.json.None? then Err(InvalidJson(response.text))
    else Ok(response.json.value)
  }

  /** The status check of `__request` as written. Raising `NakadiException`
      first runs its constructor, which passes the message to
      `Exception.__init__` as a keyword argument; that initialiser takes no
      keyword arguments and raises TypeError instead. So an unexpected
      status never yields a Nakadi error, and what the caller receives says
      nothing about the response. */
  function CheckAsWritten(req: HttpRequest, expected: seq<nat>, response: Response): (r: Result<Value, Error>)
    ensures response.status !in expected <==> r == Err(ExceptionInitTypeError)
    ensures response.status in expected ==> r == Check(req, expected, response)
    ensures !(r.Err? && r.error.NakadiError?)
  {
    if response.status !in expected then Err(ExceptionInitTypeError)
    else Check(req, expected, response)
  }

  /** As written, two responses with different unexpected statuses or texts
      reach the caller as the same failure, whereas `Check` keeps them
      apart. */
  lemma AsWrittenForgetsResponse(req: HttpRequest, expected: seq<nat>, r1: Response, r2: Response)
    requires r1.status !in expected && r2.status !in expected
    requires r1.status != r2.status || r1.text != r2.text
    ensures CheckAsWritten(req, expected, r1) == CheckAsWritten(req, expected, r2)
    ensures Check(req, expected, r1) != Check(req, expected, r2)
  {
  }

  /** A POST answered with status 500: as written the caller gets the
      TypeError, where the intended check gives the Nakadi error carrying
      the status and the text. */
  lemma AsWrittenServerError(url: string, headers: map<string, string>, data: Value)
    ensures var req := HttpRequest(Post, url, headers, Some(Encode(data)));
      var response := Response(500, "boom", None);
      && CheckAsWritten(req, DefaultExpected, response) == Err(ExceptionInitTypeError)
      && Check(req, DefaultExpected, response) == Err(NakadiError(Post, url, 500, "boom"))
  {
  }

  /** One call of `__request`: send the shaped request, check the answer. */
  function Exchange(client: Client, path: string, expected: seq<nat>, data: Value, env: Env): (r: Result<Value, Error>)
    ensures var req := Shape(client, path, data, env);
      var response := env.server(req);
      && req.url == client.url + "/" + path
      && (req.verb == Get <==> data.VNone?)
      && (r.Ok? <==> response.status in expected && response.json.Some?)
      && (r.Ok? ==> r.value == response.json.value)
      && (response.status !in expected <==> r == Err(NakadiError(req.verb, req.url, response.status, response.text)))
      && (response.status in expected && response.json.None? ==> r == Err(InvalidJson(response.text)))
  {
    var req := Shape(client, path, data, env);
    Check(req, expected, env.server(req))
  }

  /** `NakadiWrapper.__request`, step by step as the source does it. */
  method Request(client: Client, path: string, expected: seq<nat>, data: Value, env: Env)
    returns (result: Result<Value, Error>)
    ensures result == Exchange(client, path, expected, data, env)
  {
    var headers := map[
      "Authorization" := "Bearer " + env.tokenOf(client.tokenName),
      "User-Agent" := env.userAgent];
    var url := client.url + "/" + path;
    var verb: Verb;
    var response: Response;
    if data.VNone? {
      verb := Get;
      response := env.server(HttpRequest(Get, url, headers, None));
    } else {
      verb := Post;
      var payload := AsIs(data);
      if data.VDict? || data.VList? || data.VTuple? {
        payload := JsonText(data);
      }
      headers := headers["Content-Type" := "application/json"];
      response := env.server(HttpRequest(Post, url, headers, Some(payload)));
    }
    if response.status !in expected {
      return Err(NakadiError(verb, url, response.status, response.text));
    }
    if response.json.None? {
      return Err(InvalidJson(response.text));
    }
    return Ok(response.json.value);
  }

  function StatsPath(subscriptionId: string): string
  {
    "/subscriptions/" + subscriptionId + "/stats"
  }

  /** `subscription_stats`: a GET of the subscription's statistics. The URL
      carries two slashes after the base, as the source joins the base and a
      path that already starts with one. */
  function SubscriptionStats(client: Client, subscriptionId: string, env: Env): (r: Result<Value, Error>)
    ensures var req := Shape(client, StatsPath(subscriptionId), VNone, env);
      && req.verb == Get && req.body == None
      && req.url == client.url + "//subscriptions/" + subscriptionId + "/stats"
      && (r.Ok? <==> env.server(req).status == 200 && env.server(req).json.Some?)
      && (r.Ok? ==> r.value == env.server(req).json.value)
      && (env.server(req).status != 200 <==>
            r == Err(NakadiError(Get, req.url, env.server(req).status, env.server(req).text)))
      && (env.server(req).status == 200 && env.server(req).json.None? ==>
            r == Err(InvalidJson(env.server(req).text)))
  {
    var path := StatsPath(subscriptionId);
    assert client.url + "/" + path == client.url + "//subscriptions/" + subscriptionId + "/stats";
    Exchange(client, path, DefaultExpected, VNone, env)
  }

  // Cursor distances

  /** The result of `distance`: one number for single cursors, a list of
      numbers for lists of cursors. */
  datatype Distances = Scalar(distance: Value) | Batch(distances: seq<Value>)

  /** One entry of the cursor-distances request body. */
  function CursorPair(begin: Value, end: Value): Value
  {
    VDict(map["initial_cursor" := begin, "final_cursor" := end])
  }

  /** The comprehension pairing entry i of `begin` with entry i of `end`. */
  function Pairs(begin: seq<Value>, end: seq<Value>): (body: seq<Value>)
    requires |begin| <= |end|
    ensures |body| == |begin|
    ensures forall i :: 0 <= i < |begin| ==> body[i] == CursorPair(begin[i], end[i])
  {
    if |begin| == 0 then []
    else [CursorPair(begin[0], end[0])] + Pairs(begin[1..], end[1..])
  }

  /** The body `distance` sends, or the failure (TypeError, IndexError)
      raised while building it. A dict `begin` marks single cursors, which
      are wrapped into one-element lists first. */
  function DistanceBody(begin: Value, end: Value): (r: Result<seq<Value>, Error>)
    ensures begin.VDict? ==> r == Ok([CursorPair(begin, end)])
    ensures !begin.VDict? ==>
      (r.Ok? <==> Items(begin).Some?
                  && (|Items(begin).value| == 0
                      || (Items(end).Some? && |Items(begin).value| <= |Items(end).value|)))
    ensures !begin.VDict? && r.Ok? ==>
      && |r.value| == |Items(begin).value|
      && forall i :: 0 <= i < |r.value| ==> r.value[i] == CursorPair(Items(begin).value[i], Items(end).value[i])
    ensures r.Err? ==> r.error == BadCursors
  {
    var (bs, es) := if begin.VDict? then (Some([begin]), Some([end])) else (Items(begin), Items(end));
    assert begin.VDict? ==> Pairs([begin], [end]) == [CursorPair(begin, end)];
    match bs
    case None => Err(BadCursors)
    case Some(bs) =>
      if |bs| == 0 then Ok([])
      else if es.None? || |es.value| < |bs| then Err(BadCursors)
      else Ok(Pairs(bs, es.value))
  }

  /** `item['distance']`, when `item` is a dict holding that key. */
  function DistanceOf(item: Value): Option<Value>
  {
    if item.VDict? && "distance" in item.entries then Some(item.entries["distance"]) else None
  }

  /** `[v['distance'] for v in items]`, or `None` when some item has no
      distance. */
  function AllDistances(items: seq<Value>): (r: Option<seq<Value>>)
    ensures r.Some? <==> forall i :: 0 <= i < |items| ==> DistanceOf(items[i]).Some?
    ensures r.Some? ==>
      && |r.value| == |items|
      && forall i :: 0 <= i < |items| ==> r.value[i] == DistanceOf(items[i]).value
  {
    if |items| == 0 then Some([])
    else match (DistanceOf(items[0]), AllDistances(items[1..]))
      case (Some(d), Some(ds)) => Some([d] + ds)
      case _ => None
  }

  /** What `distance` makes of the parsed response: `response[0]['distance']`
      for single cursors, `[v['distance'] for v in response]` otherwise. A
      dict or string response iterates over strings, so it yields a list only
      when empty. */
  function Unbatch(single: bool, response: Value): (r: Result<Distances, Error>)
    ensures single && r.Ok? ==> r.value.Scalar?
    ensures !single && r.Ok? ==> r.value.Batch?
    ensures single ==>
      (r.Ok? <==> Items(response).Some? && |Items(response).value| > 0
                  && DistanceOf(Items(response).value[0]).Some?)
    ensures single && r.Ok? ==> r.value.distance == DistanceOf(Items(response).value[0]).value
    ensures !single && (response.VList? || response.VTuple?) ==>
      (r.Ok? <==> forall i :: 0 <= i < |response.items| ==> DistanceOf(response.items[i]).Some?)
    ensures !single && !(response.VList? || response.VTuple?) ==>
      (r.Ok? <==> (response.VDict? && |response.entries| == 0) || (response.VStr? && |response.s| == 0))
    ensures !single && !(response.VList? || response.VTuple?) && r.Ok? ==> r.value.distances == []
    ensures !single && (response.VList? || response.VTuple?) && r.Ok? ==>
      && |r.value.distances| == |response.items|
      && forall i :: 0 <= i < |response.items| ==> r.value.distances[i] == DistanceOf(response.items[i]).value
    ensures r.Err? ==> r.error == MalformedResponse
  {
    if single then
      match Items(response)
      case Some(xs) =>
        if |xs| > 0 && DistanceOf(xs[0]).Some? then Ok(Scalar(DistanceOf(xs[0]).value))
        else Err(MalformedResponse)
      case None => Err(MalformedResponse)
    else if response.VDict? then
      if |response.entries| == 0 then Ok(Batch([])) else Err(MalformedResponse)
    else if response.VStr? && |response.s| == 0 then Ok(Batch([]))
    else if response.VList? || response.VTuple? then
      match AllDistances(response.items)
      case Some(ds) => Ok(Batch(ds))
      case None => Err(MalformedResponse)
    else Err(MalformedResponse)
  }

  function DistancesPath(eventType: string): string
  {
    "/event-types/" + eventType + "/cursor-distances"
  }

  /** `NakadiWrapper.distance`: build the body, POST it, read the distances. */
  function Distance(client: Client, eventType: string, begin: Value, end: Value, env: Env): (r: Result<Distances, Error>)
    ensures begin.VDict? && r.Ok? ==> r.value.Scalar?
    ensures !begin.VDict? && r.Ok? ==> r.value.Batch?
    ensures DistanceBody(begin, end).Err? ==> r == Err(BadCursors)
  {
    match DistanceBody(begin, end)
    case Err(e) => Err(e)
    case Ok(body) =>
      match Exchange(client, DistancesPath(eventType), DefaultExpected, VList(body), env)
      case Err(e) => Err(e)
      case Ok(response) => Unbatch(begin.VDict?, response)
  }

  /** The request `distance` sends for a body. */
  function DistanceRequest(client: Client, eventType: string, body: seq<Value>, env: Env): HttpRequest
  {
    Shape(client, DistancesPath(eventType), VList(body), env)
  }

  /** Once the body is built, `distance` POSTs it as JSON, with the JSON
      content type, to the event type's cursor-distances URL (two slashes
      after the base), even when the body is empty; a status other than 200
      is a Nakadi error, and with 200 the distances are read from the parsed
      body. */
  lemma DistanceSends(client: Client, eventType: string, begin: Value, end: Value, env: Env)
    requires DistanceBody(begin, end).Ok?
    ensures var req := DistanceRequest(client, eventType, DistanceBody(begin, end).value, env);
      var response := env.server(req);
      && req.verb == Post
      && req.url == client.url + "//event-types/" + eventType + "/cursor-distances"
      && req.body == Some(JsonText(VList(DistanceBody(begin, end).value)))
      && req.headers["Content-Type"] == "application/json"
      && (response.status != 200 ==>
            Distance(client, eventType, begin, end, env)
              == Err(NakadiError(Post, req.url, response.status, response.text)))
      && (response.status == 200 && response.json.Some? ==>
            Distance(client, eventType, begin, end, env) == Unbatch(begin.VDict?, response.json.value))
      && (response.status == 200 && response.json.None? ==>
            Distance(client, eventType, begin, end, env) == Err(InvalidJson(response.text)))
  {
  }

  /** Single cursors are handled as a batch of one: the same request goes
      out, and whenever the batch would give distances the single call gives
      the first of them. */
  lemma SingleIsBatchOfOne(client: Client, eventType: string, begin: Value, end: Value, env: Env)
    requires begin.VDict?
    ensures DistanceBody(begin, end) == DistanceBody(VList([begin]), VList([end]))
    ensures var batch := Distance(client, eventType, VList([begin]), VList([end]), env);
      batch.Ok? && |batch.value.distances| > 0 ==>
        Distance(client, eventType, begin, end, env) == Ok(Scalar(batch.value.distances[0]))
    ensures var batch := Distance(client, eventType, VList([begin]), VList([end]), env);
      batch.Err? && !batch.error.MalformedResponse? ==>
        Distance(client, eventType, begin, end, env) == batch
  {
  }

  /** Extra end cursors beyond the begin cursors play no part. */
  lemma ExtraEndCursorsIgnored(client: Client, eventType: string, begin: seq<Value>, end: seq<Value>, extra: seq<Value>, env: Env)
    requires |begin| <= |end|
    ensures DistanceBody(VList(begin), VList(end)) == DistanceBody(VList(begin), VList(end + extra))
    ensures Distance(client, eventType, VList(begin), VList(end), env)
         == Distance(client, eventType, VList(begin), VList(end + extra), env)
  {
    var b1 := DistanceBody(VList(begin), VList(end));
    var b2 := DistanceBody(VList(begin), VList(end + extra));
    assert Items(VList(begin)) == Some(begin);
    assert Items(VList(end)) == Some(end) && Items(VList(end + extra)) == Some(end + extra);
    assert b1.Ok? && b2.Ok?;
    assert |b1.value| == |b2.value| == |begin|;
    forall i | 0 <= i < |begin|
      ensures b1.value[i] == b2.value[i]
    {
      assert (end + extra)[i] == end[i];
    }
    assert b1.value == b2.value;
  }

  /** Single cursors at offsets 0 and 5 of partition 0, answered with
      `[{"distance": 5}]`, give 5. */
  lemma DistanceExample(client: Client, tokenOf: string -> string, userAgent: string)
    ensures var from := VDict(map["partition" := VStr("0"), "offset" := VStr("0")]);
      var to := VDict(map["partition" := VStr("0"), "offset" := VStr("5")]);
      var answer := Response(200, "[{\"distance\": 5}]", Some(VList([VDict(map["distance" := VInt(5)])])));
      Distance(client, "et", from, to, Env(tokenOf, userAgent, _ => answer)) == Ok(Scalar(VInt(5)))
  {
  }

  /** For lists of cursors, a successful `distance` returns one distance per
      response item, in the order of the items. */
  lemma BatchDistancesInResponseOrder(client: Client, eventType: string, begin: Value, end: Value, env: Env)
    requires !begin.VDict?
    requires Distance(client, eventType, begin, end, env).Ok?
    ensures var req := DistanceRequest(client, eventType, DistanceBody(begin, end).value, env);
      var response := env.server(req);
      var ds := Distance(client, eventType, begin, end, env).value.distances;
      && response.status == 200 && response.json.Some?
      && ((response.json.value.VList? || response.json.value.VTuple?) ==>
            && |ds| == |response.json.value.items|
            && forall i :: 0 <= i < |ds| ==> ds[i] == DistanceOf(response.json.value.items[i]).value)
      && (!(response.json.value.VList? || response.json.value.VTuple?) ==> ds == [])
  {
  }
}
