/** The forwarding decisions of `proxy_request_to_provider`: the provider's origin, the
    outbound URL, the authorization header, the stream-or-buffer classification of the
    upstream reply and the response relayed to the caller. The network exchange is an
    input: the upstream reply to whatever request is sent. */
module Proxy {
  import opened Wrappers
  import opened Errors
  import opened Strings
  import opened Http

  const GatewayKeyHeader := "x-magicapi-api-key"
  const EventStream := "text/event-stream"

  datatype InboundRequest = InboundRequest(
    httpMethod: string,
    path: string,
    query: Option<string>,
    headers: HeaderList,
    body: Bytes)

  /** What the gateway sends upstream. */
  datatype OutboundRequest = OutboundRequest(
    httpMethod: string,
    url: string,
    headers: map<string, string>,
    body: Bytes)

  /** One item of the upstream body stream: a chunk of bytes, or a read error. */
  datatype Chunk = Data(bytes: Bytes) | ReadError(cause: string)

  /** The upstream exchange: the send fails, or a reply arrives with its status, its
      headers and its body as a stream of chunks. */
  datatype Upstream =
    | SendFailed
    | Replied(status: StatusCode, headers: HeaderList, chunks: seq<Chunk>)

  /** One item of the relayed stream: the bytes of a chunk, or an I/O error of kind
      `Other` wrapping the upstream error. */
  datatype StreamItem = Item(bytes: Bytes) | IoErrorOther(cause: string)

  datatype Body = Full(bytes: Bytes) | Streamed(items: seq<StreamItem>)

  /** A response to the caller. `extension` holds the header map attached as a request
      extension (the streaming branch) rather than as headers. */
  datatype Response = Response(
    status: StatusCode,
    headers: HeaderList,
    extension: Option<map<string, string>>,
    body: Body)

  // ---------------------------------------------------------------------------
  // Provider resolution and the outbound URL

  /** The origin of each provider the forwarding path knows; every other name is
      `UnsupportedProvider`. */
  function BaseUrl(provider: string): (r: Result<string, AppError>)
    ensures r.Ok? <==> provider == "openai" || provider == "anthropic" || provider == "groq"
    ensures r.Err? ==> r.error == UnsupportedProvider
    ensures r.Ok? ==> StartsWith(r.value, "https://api.")
  {
    match provider
    case "openai" => Ok("https://api.openai.com")
    case "anthropic" => Ok("https://api.anthropic.com")
    case "groq" => Ok("https://api.groq.com/openai")
    case _ => Err(UnsupportedProvider)
  }

  /** `format!("{}{}{}", base_url, path, query)`, with the query rendered as `?q` when
      present and as nothing otherwise. */
  function BuildUrl(base: string, path: string, query: Option<string>): string {
    base + path + (if query.Some? then "?" + query.value else "")
  }

  /** The URL split at its first `?` into the part before and the query after it. */
  function SplitQuery(url: string): (string, Option<string>)
    decreases |url|
  {
    if url == [] then ("", None)
    else if url[0] == '?' then ("", Some(url[1..]))
    else
      var (front, q) := SplitQuery(url[1..]);
      ([url[0]] + front, q)
  }

  /** The URL loses nothing: when neither the origin nor the path holds a `?` (a URI
      path never does), the first `?` separates `base + path` from the query again. */
  lemma {:induction false} SplitBuildUrl(base: string, path: string, query: Option<string>)
    requires '?' !in base && '?' !in path
    ensures SplitQuery(BuildUrl(base, path, query)) == (base + path, query)
  {
    SplitQueryAfter(base + path, if query.Some? then "?" + query.value else "");
  }

  lemma {:induction false} SplitQueryAfter(front: string, rest: string)
    requires '?' !in front
    requires rest == [] || rest[0] == '?'
    ensures SplitQuery(front + rest) == (front, if rest == [] then None else Some(rest[1..]))
    decreases |front|
  {
    if front == [] {
      assert front + rest == rest;
    } else {
      assert (front + rest)[1..] == front[1..] + rest;
      assert front[0] in front;
      SplitQueryAfter(front[1..], rest);
      assert [front[0]] + front[1..] == front;
    }
  }

  // ---------------------------------------------------------------------------
  // Authorization

  /** The `authorization` value the gateway sends upstream, or the error that stops the
      request. OpenAI: the gateway key as `Bearer <key>` when it is valid text, else a
      valid passthrough `authorization`, else `MissingApiKey`. Groq: only the
      passthrough `authorization`. Any other provider: `UnsupportedProvider`. A text
      that is not a valid header value is `InvalidHeader`. */
  function AuthValue(provider: string, headers: HeaderList, rules: HeaderRules): Result<string, AppError> {
    if provider == "openai" then
      match GetStr(headers, GatewayKeyHeader, rules)
      case Some(apiKey) =>
        if rules.isValidValue("Bearer " + apiKey) then Ok("Bearer " + apiKey) else Err(InvalidHeader)
      case None =>
        match GetStr(headers, Authorization, rules)
        case Some(auth) => if rules.isValidValue(auth) then Ok(auth) else Err(InvalidHeader)
        case None => Err(MissingApiKey)
    else if provider == "groq" then
      match GetStr(headers, Authorization, rules)
      case Some(auth) => if rules.isValidValue(auth) then Ok(auth) else Err(InvalidHeader)
      case None => Err(MissingApiKey)
    else
      Err(UnsupportedProvider)
  }

  /** Builds the outbound header map: `content-type: application/json`, then the
      provider's `authorization` entry. */
  method RequestHeaders(provider: string, headers: HeaderList, rules: HeaderRules)
    returns (r: Result<map<string, string>, AppError>)
    ensures r.Ok? <==> AuthValue(provider, headers, rules).Ok?
    ensures r.Ok? ==> r.value == map[ContentType := ApplicationJson, Authorization := AuthValue(provider, headers, rules).value]
    ensures r.Err? ==> r.error == AuthValue(provider, headers, rules).error
  {
    var outbound := map[ContentType := ApplicationJson];
    match provider {
      case "openai" =>
        var apiKey := GetStr(headers, GatewayKeyHeader, rules);
        if apiKey.Some? {
          var value := "Bearer " + apiKey.value;
          if !rules.isValidValue(value) {
            return Err(InvalidHeader);
          }
          outbound := outbound[Authorization := value];
        } else {
          var auth := GetStr(headers, Authorization, rules);
          if auth.Some? {
            if !rules.isValidValue(auth.value) {
              return Err(InvalidHeader);
            }
            outbound := outbound[Authorization := auth.value];
          } else {
            return Err(MissingApiKey);
          }
        }
      case "groq" =>
        var auth := GetStr(headers, Authorization, rules);
        if auth.Some? {
          if !rules.isValidValue(auth.value) {
            return Err(InvalidHeader);
          }
          outbound := outbound[Authorization := auth.value];
        } else {
          return Err(MissingApiKey);
        }
      case _ =>
        return Err(UnsupportedProvider);
    }
    r := Ok(outbound);
  }

  /** Only the two bearer-token providers ever get an authorization value; the
      Anthropic route, which has an origin, is refused here. */
  lemma AuthOnlyForBearerProviders(provider: string, headers: HeaderList, rules: HeaderRules)
    ensures AuthValue(provider, headers, rules).Ok? ==> provider == "openai" || provider == "groq"
    ensures provider == "anthropic" ==> AuthValue(provider, headers, rules) == Err(UnsupportedProvider)
  {
  }

  /** For OpenAI the gateway key wins: whenever it is valid text, whatever the
      `authorization` header holds, the upstream sees `Bearer <key>` (or `InvalidHeader`);
      the passthrough value is used only when there is no usable gateway key. */
  lemma OpenAiKeyPriority(headers: HeaderList, rules: HeaderRules, auth: string)
    ensures GetStr(headers, GatewayKeyHeader, rules).Some? ==>
              AuthValue("openai", headers + [Header(Authorization, auth)], rules)
              == AuthValue("openai", headers, rules)
    ensures var key := GetStr(headers, GatewayKeyHeader, rules);
            key.Some? && rules.isValidValue("Bearer " + key.value) ==>
              AuthValue("openai", headers, rules) == Ok("Bearer " + key.value)
    ensures GetStr(headers, GatewayKeyHeader, rules).None? ==>
              AuthValue("openai", headers, rules) == AuthValue("groq", headers, rules)
  {
    GetFirstAppend(headers, Header(Authorization, auth), GatewayKeyHeader);
  }

  /** Appending an entry never changes what `get` finds for a name that already has a
      value, nor for a different name. */
  lemma {:induction false} GetFirstAppend(hs: HeaderList, h: Header, name: string)
    ensures GetFirst(hs, name).Some? || h.name != name ==> GetFirst(hs + [h], name) == GetFirst(hs, name)
    decreases |hs|
  {
    if hs != [] {
      assert (hs + [h])[1..] == hs[1..] + [h];
      GetFirstAppend(hs[1..], h, name);
    }
  }

  /** For Groq the gateway key is never consulted: adding or removing it changes nothing,
      and without an `authorization` header the request is `MissingApiKey`. */
  lemma GroqIgnoresGatewayKey(headers: HeaderList, rules: HeaderRules, key: string)
    ensures AuthValue("groq", [Header(GatewayKeyHeader, key)] + headers, rules) == AuthValue("groq", headers, rules)
    ensures AuthValue("groq", headers + [Header(GatewayKeyHeader, key)], rules) == AuthValue("groq", headers, rules)
    ensures (forall i :: 0 <= i < |headers| ==> headers[i].name != Authorization) ==>
              AuthValue("groq", headers, rules) == Err(MissingApiKey)
  {
    assert GatewayKeyHeader != Authorization by {
      assert |GatewayKeyHeader| != |Authorization|;
    }
    assert ([Header(GatewayKeyHeader, key)] + headers)[1..] == headers;
    GetFirstAppend(headers, Header(GatewayKeyHeader, key), Authorization);
    GetFirstSpec(headers, Authorization);
  }

  /** `MissingApiKey` happens exactly when the provider's credential headers are all
      missing or not valid text. */
  lemma MissingApiKeyIff(provider: string, headers: HeaderList, rules: HeaderRules)
    ensures AuthValue(provider, headers, rules) == Err(MissingApiKey) <==>
              || (provider == "openai" && GetStr(headers, GatewayKeyHeader, rules).None?
                  && GetStr(headers, Authorization, rules).None?)
              || (provider == "groq" && GetStr(headers, Authorization, rules).None?)
  {
  }

  // ---------------------------------------------------------------------------
  // Classifying and relaying the reply

  /** The reply is streamed exactly when its first `content-type` value is valid text
      containing `text/event-stream`. */
  function IsEventStream(headers: HeaderList, rules: HeaderRules): (b: bool)
    ensures b <==> GetFirst(headers, ContentType).Some?
                   && rules.isVisibleAscii(GetFirst(headers, ContentType).value)
                   && exists i :: OccursAt(GetFirst(headers, ContentType).value, EventStream, i)
  {
    match GetStr(headers, ContentType, rules)
    case None => false
    case Some(ct) => ContainsIff(ct, EventStream); Contains(ct, EventStream)
  }

  /** The classification reads nothing but the first `content-type` value: two header
      lists that agree on it are classified alike, whatever else they hold. */
  lemma ClassificationReadsFirstContentType(hs1: HeaderList, hs2: HeaderList, rules: HeaderRules)
    ensures GetFirst(hs1, ContentType) == GetFirst(hs2, ContentType) ==>
              IsEventStream(hs1, rules) == IsEventStream(hs2, rules)
  {
  }

  /** A header of another name placed in front does not change the classification, and
      a parameter such as `; charset=utf-8` after `text/event-stream` still streams. */
  lemma ClassificationByContentType(headers: HeaderList, rules: HeaderRules, h: Header, ct: string)
    requires h.name != ContentType
    requires rules.isVisibleAscii(EventStream + ct)
    ensures IsEventStream([h] + headers, rules) == IsEventStream(headers, rules)
    ensures IsEventStream([Header(ContentType, EventStream + ct)] + headers, rules)
  {
    assert ([h] + headers)[1..] == headers;
    assert StartsWith(EventStream + ct, EventStream) by {
      assert (EventStream + ct)[..|EventStream|] == EventStream;
    }
  }

  /** The entries of an upstream header list that convert: their value is a valid
      `HeaderValue` and their name a valid `HeaderName`. */
  function Convertible(hs: HeaderList, rules: HeaderRules): (r: HeaderList)
    ensures forall i :: 0 <= i < |r| ==> rules.isValidValue(r[i].value) && rules.isValidName(r[i].name)
    ensures |r| <= |hs|
    decreases |hs|
  {
    if hs == [] then []
    else
      var init := Convertible(hs[..|hs| - 1], rules);
      var h := hs[|hs| - 1];
      if rules.isValidValue(h.value) && rules.isValidName(h.name) then init + [h] else init
  }

  /** The best-effort header copy: every entry whose value and name convert is inserted
      in order, the others are skipped; it never fails. */
  method CopyHeaders(hs: HeaderList, rules: HeaderRules) returns (copied: map<string, string>)
    ensures copied == InsertAll(map[], Convertible(hs, rules))
  {
    copied := map[];
    var i := 0;
    while i < |hs|
      invariant 0 <= i <= |hs|
      invariant copied == InsertAll(map[], Convertible(hs[..i], rules))
    {
      assert hs[..i + 1][..i] == hs[..i];
      var name, value := hs[i].name, hs[i].value;
      if rules.isValidValue(value) {
        if rules.isValidName(name) {
          copied := copied[name := value];
        }
      }
      i := i + 1;
    }
    assert hs[..i] == hs;
  }

  /** The last convertible value under a name is the one copied; a name survives
      exactly when some entry carrying it converts. */
  lemma ConvertibleLast(hs: HeaderList, rules: HeaderRules, name: string)
    ensures var m := InsertAll(map[], Convertible(hs, rules));
            && (name in m <==> exists i :: 0 <= i < |hs| && hs[i].name == name
                                          && rules.isValidValue(hs[i].value) && rules.isValidName(name))
            && (name in m ==> exists i :: 0 <= i < |hs| && hs[i] == Header(name, m[name])
                                          && rules.isValidValue(m[name]) && rules.isValidName(name)
                                          && forall j :: i < j < |hs| && hs[j].name == name ==>
                                               !rules.isValidValue(hs[j].value))
  {
    InsertAllLastWins(map[], Convertible(hs, rules), name);
    ConvertibleLastValue(hs, rules, name);
  }

  /** Filtering keeps the order: the last value under a name among the convertible
      entries is that of the latest upstream entry with that name that converts. */
  lemma ConvertibleLastValue(hs: HeaderList, rules: HeaderRules, name: string)
    ensures var last := LastValueOf(Convertible(hs, rules), name);
            && (last.None? <==> forall i :: 0 <= i < |hs| && hs[i].name == name ==>
                                   !(rules.isValidValue(hs[i].value) && rules.isValidName(name)))
            && (last.Some? ==> exists i :: 0 <= i < |hs| && hs[i] == Header(name, last.value)
                                  && rules.isValidValue(last.value) && rules.isValidName(name)
                                  && forall j :: i < j < |hs| && hs[j].name == name ==>
                                       !rules.isValidValue(hs[j].value))
  {
    ConvertibleNoneLast(hs, rules, name);
    ConvertibleSomeLast(hs, rules, name);
  }

  /** One step of the filter: the entries of `hs` that convert are those of all but its
      last entry, followed by that entry when it converts. */
  lemma ConvertibleStep(hs: HeaderList, rules: HeaderRules, name: string)
    requires hs != []
    ensures var c := Convertible(hs[..|hs| - 1], rules);
            var h := hs[|hs| - 1];
            LastValueOf(Convertible(hs, rules), name) ==
              if rules.isValidValue(h.value) && rules.isValidName(h.name) && h.name == name then Some(h.value)
              else LastValueOf(c, name)
  {
    var c := Convertible(hs[..|hs| - 1], rules);
    var h := hs[|hs| - 1];
    if rules.isValidValue(h.value) && rules.isValidName(h.name) {
      assert (c + [h])[..|c|] == c;
    }
  }

  /** No convertible value is left under a name exactly when no entry with it converts. */
  lemma {:induction false} ConvertibleNoneLast(hs: HeaderList, rules: HeaderRules, name: string)
    ensures LastValueOf(Convertible(hs, rules), name).None? <==>
              forall i :: 0 <= i < |hs| && hs[i].name == name ==>
                !(rules.isValidValue(hs[i].value) && rules.isValidName(name))
    decreases |hs|
  {
    if hs != [] {
      var init := hs[..|hs| - 1];
      ConvertibleNoneLast(init, rules, name);
      ConvertibleStep(hs, rules, name);
      assert forall i :: 0 <= i < |init| ==> hs[i] == init[i];
    }
  }

  /** A value left under a name comes from the latest entry with that name that converts. */
  lemma {:induction false} ConvertibleSomeLast(hs: HeaderList, rules: HeaderRules, name: string)
    ensures var last := LastValueOf(Convertible(hs, rules), name);
            last.Some? ==> exists i :: 0 <= i < |hs| && hs[i] == Header(name, last.value)
                             && rules.isValidValue(last.value) && rules.isValidName(name)
                             && forall j :: i < j < |hs| && hs[j].name == name ==>
                                  !rules.isValidValue(hs[j].value)
    decreases |hs|
  {
    var last := LastValueOf(Convertible(hs, rules), name);
    if hs != [] && last.Some? {
      var init := hs[..|hs| - 1];
      var h := hs[|hs| - 1];
      ConvertibleStep(hs, rules, name);
      if rules.isValidValue(h.value) && rules.isValidName(h.name) && h.name == name {
        assert hs[|hs| - 1] == Header(name, last.value);
      } else {
        ConvertibleSomeLast(init, rules, name);
        var i :| 0 <= i < |init| && init[i] == Header(name, last.value)
                 && rules.isValidValue(last.value) && rules.isValidName(name)
                 && forall j :: i < j < |init| && init[j].name == name ==> !rules.isValidValue(init[j].value);
        assert hs[i] == init[i];
        forall j | i < j < |hs| && hs[j].name == name
          ensures !rules.isValidValue(hs[j].value)
        {
          if j < |init| {
            assert hs[j] == init[j];
          }
        }
      }
    }
  }

  /** `Convertible` keeps exactly the entries that convert. */
  lemma {:induction false} ConvertibleMembers(hs: HeaderList, rules: HeaderRules)
    ensures forall h :: h in Convertible(hs, rules) <==>
              h in hs && rules.isValidValue(h.value) && rules.isValidName(h.name)
    decreases |hs|
  {
    if hs != [] {
      ConvertibleMembers(hs[..|hs| - 1], rules);
      assert hs == hs[..|hs| - 1] + [hs[|hs| - 1]];
    }
  }

  /** The relayed stream: element by element, a data chunk passes unchanged and a read
      error becomes an I/O error carrying it. */
  function RelayChunks(chunks: seq<Chunk>): (items: seq<StreamItem>)
    ensures |items| == |chunks|
    ensures forall i :: 0 <= i < |chunks| ==>
              (chunks[i].Data? ==> items[i] == Item(chunks[i].bytes))
              && (chunks[i].ReadError? ==> items[i] == IoErrorOther(chunks[i].cause))
    decreases |chunks|
  {
    if chunks == [] then []
    else
      var head := match chunks[0]
        case Data(bytes) => Item(bytes)
        case ReadError(cause) => IoErrorOther(cause);
      [head] + RelayChunks(chunks[1..])
  }

  /** Relaying commutes with concatenation: chunks arriving later are relayed later,
      and nothing is merged or reordered. */
  lemma {:induction false} RelayAppend(a: seq<Chunk>, b: seq<Chunk>)
    ensures RelayChunks(a + b) == RelayChunks(a) + RelayChunks(b)
    decreases |a|
  {
    if a != [] {
      assert (a + b)[1..] == a[1..] + b;
      RelayAppend(a[1..], b);
    } else {
      assert a + b == b;
    }
  }

  /** `response.bytes()`: the whole body, or a failure if any chunk fails. */
  function ReadAll(chunks: seq<Chunk>): (r: Result<Bytes, AppError>)
    ensures r.Err? <==> exists i :: 0 <= i < |chunks| && chunks[i].ReadError?
    ensures r.Err? ==> r.error == UpstreamFailure
    decreases |chunks|
  {
    if chunks == [] then Ok([])
    else
      match chunks[0]
      case ReadError(_) => Err(UpstreamFailure)
      case Data(bytes) =>
        var rest := ReadAll(chunks[1..]);
        if rest.Err? then rest else Ok(bytes + rest.value)
  }

  /** The bytes of a relayed stream, up to its first error. */
  function StreamBytes(items: seq<StreamItem>): Bytes
    decreases |items|
  {
    if items == [] || items[0].IoErrorOther? then [] else items[0].bytes + StreamBytes(items[1..])
  }

  /** A stream without errors delivers the same bytes the buffered read would. */
  lemma {:induction false} StreamMatchesBuffered(chunks: seq<Chunk>)
    requires ReadAll(chunks).Ok?
    ensures StreamBytes(RelayChunks(chunks)) == ReadAll(chunks).value
    decreases |chunks|
  {
    if chunks != [] {
      StreamMatchesBuffered(chunks[1..]);
    }
  }

  /** The response of the streaming branch: the upstream status, the three fixed
      headers, the copied headers as an extension, and the relayed chunks as body. */
  function StreamingResponse(status: StatusCode, copied: map<string, string>, chunks: seq<Chunk>): Response {
    Response(
      status,
      [Header(ContentType, EventStream), Header("cache-control", "no-cache"), Header("connection", "keep-alive")],
      Some(copied),
      Streamed(RelayChunks(chunks)))
  }

  /** The streaming response keeps the status, announces an event stream that is not
      cached and keeps the connection open, and relays one item per upstream chunk. */
  lemma StreamingResponseShape(status: StatusCode, copied: map<string, string>, chunks: seq<Chunk>)
    ensures var r := StreamingResponse(status, copied, chunks);
            && r.status == status
            && GetFirst(r.headers, ContentType) == Some(EventStream)
            && GetFirst(r.headers, "cache-control") == Some("no-cache")
            && GetFirst(r.headers, "connection") == Some("keep-alive")
            && NameSet(r.headers) == {ContentType, "cache-control", "connection"}
            && r.extension == Some(copied)
            && r.body.Streamed? && |r.body.items| == |chunks|
  {
    var hs := StreamingResponse(status, copied, chunks).headers;
    assert hs[0].name == ContentType;
    assert |ContentType| != |"cache-control"| && |"connection"| != |ContentType|;
    assert |"cache-control"| != |"connection"|;
    assert NameSet(hs) == {hs[0].name, hs[1].name, hs[2].name};
    assert GetFirst(hs[2..], "connection") == Some("keep-alive");
    assert hs[1..][1..] == hs[2..];
  }

  /** The buffered branch: `Response::builder().status(status)`, then one
      `builder.header(name, value)` per copied entry, then the body. The builder appends,
      and the copied map has one value per name, so each entry appears exactly once. */
  method BufferedResponse(status: StatusCode, copied: map<string, string>, body: Bytes) returns (resp: Response)
    ensures resp.status == status && resp.extension.None? && resp.body == Full(body)
    ensures ListsMap(resp.headers, copied)
  {
    var builderHeaders: HeaderList := [];
    var pending := copied.Keys;
    while pending != {}
      invariant pending <= copied.Keys
      invariant NameSet(builderHeaders) == copied.Keys - pending
      invariant forall i :: 0 <= i < |builderHeaders| ==>
                  builderHeaders[i].name in copied && builderHeaders[i].value == copied[builderHeaders[i].name]
      invariant forall i, j :: 0 <= i < j < |builderHeaders| ==> builderHeaders[i].name != builderHeaders[j].name
      decreases pending
    {
      var name :| name in pending;
      NameSetAppend(builderHeaders, Header(name, copied[name]));
      builderHeaders := builderHeaders + [Header(name, copied[name])];
      pending := pending - {name};
    }
    resp := Response(status, builderHeaders, None, Full(body));
  }

  lemma NameSetAppend(hs: HeaderList, h: Header)
    ensures NameSet(hs + [h]) == NameSet(hs) + {h.name}
  {
    var hs' := hs + [h];
    assert hs'[|hs|] == h;
    forall n | n in NameSet(hs) ensures n in NameSet(hs') {
      var i :| 0 <= i < |hs| && hs[i].name == n;
      assert hs'[i] == hs[i];
    }
  }

  // ---------------------------------------------------------------------------
  // The whole forwarding decision

  /** `proxy_request_to_provider`. The checks run in the source's order: provider,
      method, credentials; only when all pass is a request sent, and `sent` is that
      request. `isValidMethod` is the rule of `Method::from_str`; `network` gives the
      upstream exchange for the request sent. */
  method ProxyRequest(
    provider: string,
    request: InboundRequest,
    rules: HeaderRules,
    isValidMethod: string -> bool,
    network: OutboundRequest -> Upstream)
    returns (r: Result<Response, AppError>, sent: Option<OutboundRequest>)
    ensures BaseUrl(provider).Err? ==> r == Err(UnsupportedProvider) && sent.None?
    ensures sent.Some? <==>
              BaseUrl(provider).Ok? && isValidMethod(request.httpMethod) && AuthValue(provider, request.headers, rules).Ok?
    ensures sent.None? && BaseUrl(provider).Ok? ==>
              r == Err(if !isValidMethod(request.httpMethod) then InvalidMethod
                       else AuthValue(provider, request.headers, rules).error)
    ensures sent.Some? ==>
              sent.value == OutboundRequest(
                request.httpMethod,
                BuildUrl(BaseUrl(provider).value, request.path, request.query),
                map[ContentType := ApplicationJson, Authorization := AuthValue(provider, request.headers, rules).value],
                request.body)
    ensures sent.Some? && network(sent.value).SendFailed? ==> r == Err(UpstreamFailure)
    ensures sent.Some? && network(sent.value).Replied? ==>
              var reply := network(sent.value);
              var copied := InsertAll(map[], Convertible(reply.headers, rules));
              if IsEventStream(reply.headers, rules) then
                r == Ok(StreamingResponse(reply.status, copied, reply.chunks))
              else if ReadAll(reply.chunks).Err? then
                r == Err(UpstreamFailure)
              else
                && r.Ok? && r.value.status == reply.status && r.value.extension.None?
                && r.value.body == Full(ReadAll(reply.chunks).value)
                && ListsMap(r.value.headers, copied)
  {
    sent := None;
    var baseUrl := BaseUrl(provider);
    if baseUrl.Err? {
      return Err(baseUrl.error), None;
    }
    var url := BuildUrl(baseUrl.value, request.path, request.query);
    if !isValidMethod(request.httpMethod) {
      return Err(InvalidMethod), None;
    }
    var outboundHeaders := RequestHeaders(provider, request.headers, rules);
    if outboundHeaders.Err? {
      return Err(outboundHeaders.error), None;
    }
    var outbound := OutboundRequest(request.httpMethod, url, outboundHeaders.value, request.body);
    sent := Some(outbound);
    var reply := network(outbound);
    if reply.SendFailed? {
      return Err(UpstreamFailure), sent;
    }
    var copied := CopyHeaders(reply.headers, rules);
    if IsEventStream(reply.headers, rules) {
      r := Ok(StreamingResponse(reply.status, copied, reply.chunks));
    } else {
      var body := ReadAll(reply.chunks);
      if body.Err? {
        return Err(body.error), sent;
      }
      var resp := BufferedResponse(reply.status, copied, body.value);
      r := Ok(resp);
    }
  }
}
