/** The Bedrock provider: translates a chat-style request into the body, path and
    headers of a Bedrock model invocation, and extracts the AWS signing material. */
module Bedrock {
  import opened Wrappers
  import opened Errors
  import opened Strings
  import opened Json
  import opened Http

  const DefaultRegion := "us-east-1"
  /** The model used when the body names none and when the path is the generic
      chat-completions path. */
  const DefaultModel := "amazon.titan-text-premier-v1:0"
  /** The fallback of `get_model_name`, which `split` never lets it reach. */
  const EmbedModel := "amazon.titan-embed-text-v1"
  const AwsPrefix := "x-aws-"
  const AccessKeyHeader := "x-aws-access-key-id"
  const SecretKeyHeader := "x-aws-secret-access-key"
  const RegionHeader := "x-aws-region"

  /** The provider is immutable once built. */
  datatype BedrockProvider = BedrockProvider(baseUrl: string, region: string)

  /** `get_signing_host`: the runtime host of the provider's own region. */
  function SigningHost(p: BedrockProvider): string {
    "bedrock-runtime." + p.region + ".amazonaws.com"
  }

  /** `BedrockProvider::new`: region `us-east-1`, and the base URL is the HTTPS origin of
      the signing host, so requests go to the host they are signed for. */
  function New(): (p: BedrockProvider)
    ensures p.region == DefaultRegion
    ensures p.baseUrl == "https://" + SigningHost(p)
  {
    var region := DefaultRegion;
    BedrockProvider("https://bedrock-runtime." + region + ".amazonaws.com", region)
  }

  /** `name`. */
  function Name(p: BedrockProvider): string {
    "bedrock"
  }

  /** `requires_signing`: every Bedrock call must be signed. */
  predicate RequiresSigning(p: BedrockProvider) {
    true
  }

  /** The provider's fixed identity: registry key, signing demand, and an origin that
      does not depend on anything but the region. */
  lemma ProviderIdentity(p: BedrockProvider)
    ensures Name(p) == "bedrock" && RequiresSigning(p)
    ensures forall u :: SigningHost(BedrockProvider(u, p.region)) == SigningHost(p)
  {
  }

  // ---------------------------------------------------------------------------
  // Paths

  /** `get_model_name`: the text after the last `/` of the path (the whole path when it
      holds none). The embedding-model fallback is never taken, since `split` always
      yields a last piece. */
  function ModelName(p: BedrockProvider, path: string): (m: string)
    ensures '/' !in m
    ensures |m| <= |path| && path[|path| - |m|..] == m
    ensures |m| < |path| ==> path[|path| - |m| - 1] == '/'
    ensures m == Split(path, '/')[|Split(path, '/')| - 1]
  {
    LastPiece(path, '/');
    var parts := Split(path, '/');
    if |parts| > 0 then parts[|parts| - 1] else EmbedModel
  }

  /** `transform_path`: the generic chat-completions path invokes the default model;
      any other path invokes the model named by its last segment. */
  function TransformPath(p: BedrockProvider, path: string): (r: string)
    ensures Contains(path, "chat/completions") ==> r == "/model/" + DefaultModel + "/invoke"
    ensures !Contains(path, "chat/completions") ==> r == "/model/" + ModelName(p, path) + "/invoke"
  {
    var model :=
      if Contains(path, "chat/completions") then DefaultModel
      else
        var parts := Split(path, '/');
        if |parts| > 0 then parts[|parts| - 1] else DefaultModel;
    "/model/" + model + "/invoke"
  }

  /** Every rewritten path has the shape `/model/{m}/invoke`, where `m` is the default
      model or a string without `/` that ends the inbound path. */
  lemma TransformPathShape(p: BedrockProvider, path: string)
    ensures var r := TransformPath(p, path);
            exists m :: r == "/model/" + m + "/invoke"
                        && (m == DefaultModel || ('/' !in m && |m| <= |path| && path[|path| - |m|..] == m))
  {
    if !Contains(path, "chat/completions") {
      var m := ModelName(p, path);
      assert TransformPath(p, path) == "/model/" + m + "/invoke";
    } else {
      assert TransformPath(p, path) == "/model/" + DefaultModel + "/invoke";
    }
  }

  /** A path ending in `/` names the empty model, `/model//invoke`. */
  lemma TrailingSlashGivesEmptyModel(p: BedrockProvider, path: string)
    requires |path| > 0 && path[|path| - 1] == '/'
    requires !Contains(path, "chat/completions")
    ensures TransformPath(p, path) == "/model//invoke"
  {
    EmptyWhenEndsInExcluded(path, ModelName(p, path), '/');
    EmptyModelPath(p, path);
  }

  /** An empty model name gives the path `/model//invoke`. */
  lemma EmptyModelPath(p: BedrockProvider, path: string)
    requires !Contains(path, "chat/completions")
    requires ModelName(p, path) == []
    ensures TransformPath(p, path) == "/model//invoke"
  {
    assert "/model/" + [] + "/invoke" == "/model//invoke";
  }

  /** The generic chat-completions route of the gateway always invokes the default model. */
  lemma ChatCompletionsPath(p: BedrockProvider)
    ensures TransformPath(p, "/bedrock/chat/completions") == "/model/" + DefaultModel + "/invoke"
  {
    var path := "/bedrock/chat/completions";
    assert OccursAt(path, "chat/completions", 9) by {
      assert path == "/bedrock/" + "chat/completions";
    }
    ContainsAt(path, "chat/completions", 9);
  }

  // ---------------------------------------------------------------------------
  // Bodies

  /** The model the body names, or the default model when `model` is absent or not a
      string. */
  function ModelOf(body: Json): string {
    AsStr(Get(body, "model")).GetOr(DefaultModel)
  }

  /** The role marker of one Anthropic prompt segment. */
  function RolePrefix(role: string): string {
    if role == "system" then "\n\nSystem: "
    else if role == "assistant" then "\n\nAssistant: "
    else "\n\nHuman: "
  }

  /** The prompt segment of one message: its role marker (a missing role counts as
      `user`) followed by its content (a missing content counts as empty). */
  function Segment(msg: Json): string {
    var role := AsStr(Get(msg, "role")).GetOr("user");
    var content := AsStr(Get(msg, "content")).GetOr("");
    RolePrefix(role) + content
  }

  /** The messages mapped to segments and collected into one string. */
  function Prompt(msgs: seq<Json>): string
    decreases |msgs|
  {
    if msgs == [] then "" else Segment(msgs[0]) + Prompt(msgs[1..])
  }

  /** The Titan `inputText`: the last message's string content, else empty. */
  function LastContent(msgs: seq<Json>): string {
    if |msgs| == 0 then "" else AsStr(Get(msgs[|msgs| - 1], "content")).GetOr("")
  }

  /** A `u64` field of the body, or its default. */
  function U64Or(body: Json, key: string, default: u64): u64 {
    AsU64(Get(body, key)).GetOr(default)
  }

  /** A number field of the body read as a float, or its default. */
  function F64Or(body: Json, key: string, default: real): real {
    AsF64(Get(body, key)).GetOr(default)
  }

  function TitanBody(body: Json, msgs: seq<Json>): Json {
    JObj(map[
      "inputText" := JStr(LastContent(msgs)),
      "textGenerationConfig" := JObj(map[
        "maxTokenCount" := JNum(PosInt(U64Or(body, "max_tokens", 1000))),
        "temperature" := JNum(Float(F64Or(body, "temperature", 0.7))),
        "topP" := JNum(Float(F64Or(body, "top_p", 1.0))),
        "stopSequences" := JArr([])])])
  }

  function AnthropicBody(body: Json, msgs: seq<Json>): Json {
    JObj(map[
      "prompt" := JStr(Prompt(msgs)),
      "max_tokens_to_sample" := JNum(PosInt(U64Or(body, "max_tokens", 1000))),
      "temperature" := JNum(Float(F64Or(body, "temperature", 0.7))),
      "top_p" := JNum(Float(F64Or(body, "top_p", 1.0))),
      "top_k" := JNum(PosInt(U64Or(body, "top_k", 250))),
      "stop_sequences" := JArr([JStr("\n\nHuman:"), JStr("\n\nAssistant:")])])
  }

  /** `transform_request_body`. The `messages` check comes first, so a body without a
      `messages` array is `InvalidRequestFormat` whatever its model; then "titan" is
      tested before "anthropic", and a model with neither is `UnsupportedModel`. */
  function TransformRequestBody(p: BedrockProvider, body: Json): (r: Result<Json, AppError>)
    ensures r == Err(InvalidRequestFormat) <==> !Get(body, "messages").JArr?
    ensures r == Err(UnsupportedModel) <==>
              Get(body, "messages").JArr?
              && !Contains(ModelOf(body), "titan") && !Contains(ModelOf(body), "anthropic")
    ensures r.Ok? ==> r.value.JObj?
    ensures r.Ok? && Contains(ModelOf(body), "titan") ==> "inputText" in r.value.fields
    ensures r.Ok? ==> ("prompt" in r.value.fields <==> !Contains(ModelOf(body), "titan"))
  {
    match AsArray(Get(body, "messages"))
    case None => Err(InvalidRequestFormat)
    case Some(messages) =>
      var model := ModelOf(body);
      if Contains(model, "titan") then Ok(TitanBody(body, messages))
      else if Contains(model, "anthropic") then Ok(AnthropicBody(body, messages))
      else Err(UnsupportedModel)
  }

  /** The default model belongs to the Titan family. */
  lemma DefaultModelIsTitan()
    ensures Contains(DefaultModel, "titan")
  {
    assert DefaultModel == "amazon." + "titan" + "-text-premier-v1:0";
    assert DefaultModel[7..12] == "titan";
    ContainsAt(DefaultModel, "titan", 7);
  }

  /** A body whose `model` is absent or not a string is translated for Titan. */
  lemma MissingModelMeansTitan(p: BedrockProvider, body: Json)
    requires Get(body, "messages").JArr?
    requires !Get(body, "model").JStr?
    ensures TransformRequestBody(p, body) == Ok(TitanBody(body, Get(body, "messages").items))
  {
    DefaultModelIsTitan();
  }

  /** Titan is tested first: a model naming Titan is translated for Titan even when it
      also names Anthropic. */
  lemma TitanRoute(p: BedrockProvider, body: Json)
    requires Get(body, "messages").JArr?
    requires Contains(ModelOf(body), "titan")
    ensures TransformRequestBody(p, body) == Ok(TitanBody(body, Get(body, "messages").items))
  {
  }

  /** A model naming Anthropic but not Titan is translated for Anthropic. */
  lemma AnthropicRoute(p: BedrockProvider, body: Json)
    requires Get(body, "messages").JArr?
    requires !Contains(ModelOf(body), "titan") && Contains(ModelOf(body), "anthropic")
    ensures TransformRequestBody(p, body) == Ok(AnthropicBody(body, Get(body, "messages").items))
  {
  }

  /** The Titan body: `inputText` is the last message's content (empty when there are
      no messages or that content is not a string); each generation setting is the
      caller's value when it has the right type, else its default; `stopSequences` is
      always empty. */
  lemma TitanFields(body: Json, msgs: seq<Json>)
    ensures var out := TitanBody(body, msgs);
            Get(out, "inputText") ==
              JStr(if |msgs| > 0 && Get(msgs[|msgs| - 1], "content").JStr?
                   then Get(msgs[|msgs| - 1], "content").s else "")
    ensures var cfg := Get(TitanBody(body, msgs), "textGenerationConfig");
            && Get(cfg, "maxTokenCount") ==
                 JNum(PosInt(if Get(body, "max_tokens").JNum? && Get(body, "max_tokens").n.PosInt?
                             then Get(body, "max_tokens").n.u else 1000))
            && Get(cfg, "temperature") ==
                 JNum(Float(if Get(body, "temperature").JNum? then AsF64(Get(body, "temperature")).value else 0.7))
            && Get(cfg, "topP") ==
                 JNum(Float(if Get(body, "top_p").JNum? then AsF64(Get(body, "top_p")).value else 1.0))
            && Get(cfg, "stopSequences") == JArr([])
    ensures TitanBody(body, msgs).fields.Keys == {"inputText", "textGenerationConfig"}
    ensures Get(TitanBody(body, msgs), "textGenerationConfig").fields.Keys ==
              {"maxTokenCount", "temperature", "topP", "stopSequences"}
  {
  }

  /** Concatenating two message lists concatenates their prompts: one segment per
      message, in order. */
  lemma {:induction false} PromptAppend(a: seq<Json>, b: seq<Json>)
    ensures Prompt(a + b) == Prompt(a) + Prompt(b)
    decreases |a|
  {
    if a != [] {
      assert (a + b)[1..] == a[1..] + b;
      PromptAppend(a[1..], b);
    } else {
      assert a + b == b;
    }
  }

  /** The prompt is the concatenation of exactly one segment per message, in order,
      each segment opening with the marker of its message's role. */
  lemma {:induction false} PromptSegments(msgs: seq<Json>)
    ensures Prompt(msgs) == Concat(seq(|msgs|, i requires 0 <= i < |msgs| => Segment(msgs[i])))
    decreases |msgs|
  {
    if msgs != [] {
      PromptSegments(msgs[1..]);
      var all := seq(|msgs|, i requires 0 <= i < |msgs| => Segment(msgs[i]));
      assert all[1..] == seq(|msgs[1..]|, i requires 0 <= i < |msgs[1..]| => Segment(msgs[1..][i]));
    }
  }

  /** The role markers: `system` and `assistant` have their own, every other role
      (and a missing one) is the human marker. */
  lemma SegmentMarker(msg: Json)
    ensures var role := Get(msg, "role");
            var content := if Get(msg, "content").JStr? then Get(msg, "content").s else "";
            && (role == JStr("system") ==> Segment(msg) == "\n\nSystem: " + content)
            && (role == JStr("assistant") ==> Segment(msg) == "\n\nAssistant: " + content)
            && (role != JStr("system") && role != JStr("assistant") ==> Segment(msg) == "\n\nHuman: " + content)
  {
  }

  function Concat(parts: seq<string>): string
    decreases |parts|
  {
    if parts == [] then "" else parts[0] + Concat(parts[1..])
  }

  /** The Anthropic body: the prompt is built from every message, each setting is the
      caller's value when it has the right type, else its default, and the stop
      sequences are fixed. */
  lemma AnthropicFields(body: Json, msgs: seq<Json>)
    ensures Get(AnthropicBody(body, msgs), "prompt") == JStr(Prompt(msgs))
    ensures var out := AnthropicBody(body, msgs);
            && Get(out, "max_tokens_to_sample") ==
                 JNum(PosInt(if Get(body, "max_tokens").JNum? && Get(body, "max_tokens").n.PosInt?
                             then Get(body, "max_tokens").n.u else 1000))
            && Get(out, "temperature") ==
                 JNum(Float(if Get(body, "temperature").JNum? then AsF64(Get(body, "temperature")).value else 0.7))
            && Get(out, "top_p") ==
                 JNum(Float(if Get(body, "top_p").JNum? then AsF64(Get(body, "top_p")).value else 1.0))
            && Get(out, "top_k") ==
                 JNum(PosInt(if Get(body, "top_k").JNum? && Get(body, "top_k").n.PosInt?
                             then Get(body, "top_k").n.u else 250))
            && Get(out, "stop_sequences") == JArr([JStr("\n\nHuman:"), JStr("\n\nAssistant:")])
    ensures AnthropicBody(body, msgs).fields.Keys ==
              {"prompt", "max_tokens_to_sample", "temperature", "top_p", "top_k", "stop_sequences"}
  {
  }

  /** A worked Titan request: one user message and a token limit of 50. */
  lemma TitanScenario(p: BedrockProvider)
    ensures var body := JObj(map[
                          "model" := JStr(DefaultModel),
                          "messages" := JArr([JObj(map["role" := JStr("user"), "content" := JStr("hi")])]),
                          "max_tokens" := JNum(PosInt(50))]);
            TransformRequestBody(p, body) ==
              Ok(JObj(map[
                "inputText" := JStr("hi"),
                "textGenerationConfig" := JObj(map[
                  "maxTokenCount" := JNum(PosInt(50)),
                  "temperature" := JNum(Float(0.7)),
                  "topP" := JNum(Float(1.0)),
                  "stopSequences" := JArr([])])]))
  {
    var msgs := [JObj(map["role" := JStr("user"), "content" := JStr("hi")])];
    var body := JObj(map["model" := JStr(DefaultModel), "messages" := JArr(msgs), "max_tokens" := JNum(PosInt(50))]);
    DefaultModelIsTitan();
    TitanRoute(p, body);
    assert LastContent(msgs) == "hi";
    assert U64Or(body, "max_tokens", 1000) == 50;
    assert F64Or(body, "temperature", 0.7) == 0.7 && F64Or(body, "top_p", 1.0) == 1.0;
  }

  /** A worked Anthropic prompt: a system message followed by a user message. */
  lemma AnthropicScenario()
    ensures Prompt([JObj(map["role" := JStr("system"), "content" := JStr("be terse")]),
                    JObj(map["role" := JStr("user"), "content" := JStr("hi")])])
            == "\n\nSystem: be terse\n\nHuman: hi"
  {
    var sys := JObj(map["role" := JStr("system"), "content" := JStr("be terse")]);
    var user := JObj(map["role" := JStr("user"), "content" := JStr("hi")]);
    assert Segment(sys) == "\n\nSystem: be terse";
    assert Segment(user) == "\n\nHuman: hi";
    assert [sys, user][1..] == [user];
  }

  // ---------------------------------------------------------------------------
  // Headers and signing material

  /** `process_headers`: starts from `content-type: application/json` and inserts every
      inbound header whose name starts with `x-aws-`; it never fails. */
  method ProcessHeaders(p: BedrockProvider, headers: HeaderList) returns (r: Result<map<string, string>, AppError>)
    ensures r.Ok?
    ensures r.value == InsertAll(map[ContentType := ApplicationJson], AwsHeaders(headers))
  {
    var finalHeaders := map[ContentType := ApplicationJson];
    var i := 0;
    while i < |headers|
      invariant 0 <= i <= |headers|
      invariant finalHeaders == InsertAll(map[ContentType := ApplicationJson], AwsHeaders(headers[..i]))
    {
      assert headers[..i + 1][..i] == headers[..i];
      if StartsWith(headers[i].name, AwsPrefix) {
        finalHeaders := finalHeaders[headers[i].name := headers[i].value];
      }
      i := i + 1;
    }
    assert headers[..i] == headers;
    r := Ok(finalHeaders);
  }

  /** The inbound headers whose name carries the AWS prefix, in order. */
  function AwsHeaders(hs: HeaderList): HeaderList
    decreases |hs|
  {
    if hs == [] then []
    else
      var init := AwsHeaders(hs[..|hs| - 1]);
      if StartsWith(hs[|hs| - 1].name, AwsPrefix) then init + [hs[|hs| - 1]] else init
  }

  /** The last AWS-prefixed value under a name is the last inbound value under it. */
  lemma {:induction false} AwsHeadersLast(hs: HeaderList, name: string)
    ensures LastValueOf(AwsHeaders(hs), name) ==
              if StartsWith(name, AwsPrefix) then LastValueOf(hs, name) else None
    decreases |hs|
  {
    if hs != [] {
      var init := hs[..|hs| - 1];
      AwsHeadersLast(init, name);
      var a := AwsHeaders(init);
      if StartsWith(hs[|hs| - 1].name, AwsPrefix) {
        assert (a + [hs[|hs| - 1]])[..|a|] == a;
      }
    }
  }

  /** What `process_headers` forwards: `content-type: application/json`, which no inbound
      header can override, and for each `x-aws-` name its last inbound value; nothing
      else. */
  lemma ProcessHeadersExact(headers: HeaderList, name: string)
    ensures var out := InsertAll(map[ContentType := ApplicationJson], AwsHeaders(headers));
            && ContentType in out && out[ContentType] == ApplicationJson
            && (name in out <==> name == ContentType || (StartsWith(name, AwsPrefix) && LastValueOf(headers, name).Some?))
            && (name in out && name != ContentType ==> out[name] == LastValueOf(headers, name).value)
  {
    assert !StartsWith(ContentType, AwsPrefix) by {
      assert ContentType[0] != AwsPrefix[0];
    }
    AwsHeadersLast(headers, name);
    AwsHeadersLast(headers, ContentType);
    InsertAllLastWins(map[ContentType := ApplicationJson], AwsHeaders(headers), name);
    InsertAllLastWins(map[ContentType := ApplicationJson], AwsHeaders(headers), ContentType);
  }

  /** `get_signing_credentials`: the access key and the secret key must both be present
      and valid text, else there are no credentials; the region header is used when it
      is valid, else the provider's region. */
  function SigningCredentials(p: BedrockProvider, headers: HeaderList, rules: HeaderRules): (r: Option<(string, string, string)>)
    ensures r.None? <==> GetStr(headers, AccessKeyHeader, rules).None? || GetStr(headers, SecretKeyHeader, rules).None?
    ensures r.Some? ==> r.value.0 == GetFirst(headers, AccessKeyHeader).value
    ensures r.Some? ==> r.value.1 == GetFirst(headers, SecretKeyHeader).value
    ensures r.Some? ==> r.value.2 == if GetStr(headers, RegionHeader, rules).Some?
                                     then GetFirst(headers, RegionHeader).value else p.region
  {
    match GetStr(headers, AccessKeyHeader, rules)
    case None => None
    case Some(accessKey) =>
      match GetStr(headers, SecretKeyHeader, rules)
      case None => None
      case Some(secretKey) =>
        var region := GetStr(headers, RegionHeader, rules).GetOr(p.region);
        Some((accessKey, secretKey, region))
  }

  /** Without an `x-aws-region` header the region is the provider's own, which for a
      fresh provider is `us-east-1`, and the signing host of that provider is the host
      of its base URL. */
  lemma DefaultRegionFallback(headers: HeaderList, rules: HeaderRules)
    requires forall i :: 0 <= i < |headers| ==> headers[i].name != RegionHeader
    ensures var c := SigningCredentials(New(), headers, rules);
            c.Some? ==> c.value.2 == DefaultRegion
    ensures New().baseUrl == "https://" + SigningHost(New())
  {
    GetFirstSpec(headers, RegionHeader);
  }
}
