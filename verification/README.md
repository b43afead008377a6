# Request translation and forwarding decisions of an LLM gateway

This project models, in Dafny, the two pieces of request-translation logic of a Rust
gateway that sits in front of several large-language-model HTTP APIs:

- **The Bedrock provider** (`src/providers/bedrock.rs`). It turns a chat-style JSON body
  (`model`, `messages[]`, optional `max_tokens`, `temperature`, `top_p`, `top_k`) into one
  of two Bedrock wire shapes:
  - Titan: `inputText` plus `textGenerationConfig`;
  - Anthropic-on-Bedrock: one role-prefixed `prompt`.

  It also rewrites the path to `/model/{model}/invoke` and forwards only the `x-aws-*`
  headers, always with `content-type: application/json`. Finally it extracts the AWS
  access key, secret key and region used for request signing.
- **The forwarding decisions of `proxy_request_to_provider`** (`src/proxy.rs`):
  - the provider's origin and the outbound URL;
  - the authorization header for each provider, with its priority and its
    `MissingApiKey` error;
  - whether the upstream reply is streamed or buffered, decided from its `content-type`;
  - the best-effort copy of the upstream headers;
  - the two shapes of the response relayed to the caller.

Modules:

| file | module | models |
|---|---|---|
| `wrappers.dfy` | `Wrappers` | `Option` / `Result` |
| `errors.dfy` | `Errors` | the `AppError` variants these paths return |
| `strings.dfy` | `Strings` | `starts_with`, `contains`, `split` (with `Join` as its inverse) |
| `json.dfy` | `Json` | `serde_json::Value`, `value[key]`, `as_array`, `as_str`, `as_u64`, `as_f64` |
| `http.dfy` | `Http` | header lists, `HeaderMap::get`, `insert`, `to_str`, status codes |
| `bedrock.dfy` | `Bedrock` | `BedrockProvider` |
| `proxy.dfy` | `Proxy` | `proxy_request_to_provider` |

How the model represents things:

- **Header maps.** An inbound or upstream `HeaderMap` is the sequence of its entries in
  iteration order, so a name may repeat and `get` returns the first value. A header map
  that the gateway fills with `insert` is a Dafny `map`, because `insert` replaces the
  earlier values.
- **`process_headers` and the header-copy loops.** They are methods with `while` loops.
  Each is proved equal to a fold of `insert` (`Http.InsertAll`). Lemmas then show that
  this fold keeps the last value per name.
- **The `http` crate's validity rules.** These are `HeaderValue::to_str`,
  `HeaderValue::from_str`/`from_bytes`, `HeaderName::from_bytes` and
  `Method::from_str`. They are not part of this model and enter as predicate
  parameters (`Http.HeaderRules`, `isValidMethod`), so every property holds whatever
  those rules are.
- **The network exchange.** It is a parameter `network: OutboundRequest -> Upstream`.
  The upstream either fails to send, or replies with a status, a header list and a
  sequence of body chunks, any of which may be a read error.
- **JSON objects.** They are maps, because `serde_json::Map` keeps one value per key.
  Numbers are `PosInt(u64) | NegInt(negative i64) | Float(real)`.

Details of the code's behaviour worth noting:

- A body is rejected with `InvalidRequestFormat` when `messages` is absent and also when
  it is not an array.
- The Titan and Anthropic settings take their defaults when the caller's field is absent
  and also when it has the wrong type: a float `max_tokens` gives 1000.
- In the streaming branch the copied upstream headers are attached as a response
  *extension*, not as response headers. The response carries only the three fixed
  headers.
- The forwarding path knows `openai`, `anthropic` and `groq` only; `bedrock` is
  `UnsupportedProvider` there. `anthropic` passes the origin match but has no
  credential arm, so it always ends in `UnsupportedProvider` (or `InvalidMethod` first).
- `split('/')` always yields a last piece. So the fallbacks of `get_model_name` (the
  embedding model) and of the `split` arm of `transform_path` are never taken. The model
  keeps those branches, and its contracts show they are unreachable.

## Model

| member | source | states |
|---|---|---|
| `Bedrock.New` | src/providers/bedrock.rs:16-24 | a fresh provider has region `us-east-1` and base URL `"https://" + SigningHost(p)`: it sends to the host it signs for |
| `Bedrock.ProviderIdentity` | src/providers/bedrock.rs:156-158 | the provider's name is `bedrock` and it always requires signing; the signing host depends only on the region |
| `Bedrock.ModelName` | src/providers/bedrock.rs:26-32 | `get_model_name` yields the text after the last `/` (the whole path if none): it holds no `/`, ends the path, and is preceded by `/` when shorter than the path; it is always the last piece of `split('/')`, so the embedding-model fallback is never produced |
| `Bedrock.TransformPath` | src/providers/bedrock.rs:141-154 | a path containing `chat/completions` becomes `/model/amazon.titan-text-premier-v1:0/invoke`; any other becomes `/model/{ModelName(path)}/invoke` |
| `Bedrock.TransformPathShape` | src/providers/bedrock.rs:141-154 | every rewritten path is `/model/{m}/invoke` with `m` the default model or a `/`-free suffix of the inbound path |
| `Bedrock.TrailingSlashGivesEmptyModel` | src/providers/bedrock.rs:146-147 | a path ending in `/` (and not a chat-completions path) yields the empty model `/model//invoke` |
| `Bedrock.ChatCompletionsPath` | src/providers/bedrock.rs:144-145 | `/bedrock/chat/completions` rewrites to `/model/{DefaultModel}/invoke`, the default model being `amazon.titan-text-premier-v1:0` |
| `Bedrock.TransformRequestBody` | src/providers/bedrock.rs:34-97 | `InvalidRequestFormat` exactly when `messages` is not an array, whatever the model; `UnsupportedModel` exactly when `messages` is an array and the model contains neither `titan` nor `anthropic`; a success is an object, with `inputText` when the model names Titan and `prompt` exactly when it does not |
| `Bedrock.DefaultModelIsTitan` | src/providers/bedrock.rs:43-45 | the default model `amazon.titan-text-premier-v1:0` contains `titan` |
| `Bedrock.MissingModelMeansTitan` | src/providers/bedrock.rs:43-50 | an absent or non-string `model` gives the Titan body |
| `Bedrock.TitanRoute` | src/providers/bedrock.rs:49-65 | a model containing `titan` gives the Titan body even when it also contains `anthropic` |
| `Bedrock.AnthropicRoute` | src/providers/bedrock.rs:66-88 | a model containing `anthropic` but not `titan` gives the Anthropic body |
| `Bedrock.TitanFields` | src/providers/bedrock.rs:51-64 | `inputText` is the last message's string content, or `""` when there are no messages or it is not a string; `maxTokenCount`/`temperature`/`topP` are the caller's `u64`/number or 1000/0.7/1.0; `stopSequences` is empty; no other keys |
| `Bedrock.AnthropicFields` | src/providers/bedrock.rs:80-87 | `prompt` is `Prompt(messages)`; `max_tokens_to_sample`/`temperature`/`top_p`/`top_k` are the caller's values of the right type or 1000/0.7/1.0/250; `stop_sequences` is `["\n\nHuman:", "\n\nAssistant:"]`; no other keys |
| `Bedrock.SegmentMarker` | src/providers/bedrock.rs:70-76 | a message's segment is `"\n\nSystem: "`, `"\n\nAssistant: "` or, for any other or missing role, `"\n\nHuman: "`, followed by its string content or `""` |
| `Bedrock.PromptSegments` | src/providers/bedrock.rs:68-78 | the prompt is the concatenation of exactly one segment per message, in message order |
| `Bedrock.PromptAppend` | src/providers/bedrock.rs:68-78 | the prompt of two message lists in sequence is the concatenation of their prompts |
| `Bedrock.TitanScenario` | src/providers/bedrock.rs:51-64 | one user message `hi` with `max_tokens` 50 gives `{"inputText":"hi","textGenerationConfig":{"maxTokenCount":50,"temperature":0.7,"topP":1.0,"stopSequences":[]}}` |
| `Bedrock.AnthropicScenario` | src/providers/bedrock.rs:68-78 | a system message `be terse` then a user message `hi` give the prompt `"\n\nSystem: be terse\n\nHuman: hi"` |
| `Bedrock.ProcessHeaders` | src/providers/bedrock.rs:122-139 | the loop never fails and yields `content-type: application/json` followed by `insert` of each `x-aws-` entry in order |
| `Bedrock.AwsHeadersLast` | src/providers/bedrock.rs:131-136 | the last forwarded value under a name is the last inbound value under it if the name starts with `x-aws-`, and nothing otherwise |
| `Bedrock.ProcessHeadersExact` | src/providers/bedrock.rs:122-139 | the output holds exactly `content-type: application/json`, which no inbound header overrides, plus each `x-aws-` name with its last inbound value |
| `Bedrock.SigningCredentials` | src/providers/bedrock.rs:160-173 | no credentials exactly when the access key or the secret key is missing or not valid text; otherwise both keys are the first values of their headers, and the region is a valid `x-aws-region` or else the provider's region |
| `Bedrock.DefaultRegionFallback` | src/providers/bedrock.rs:175-177 | without a region header a fresh provider's credentials carry `us-east-1`, and its base URL is `"https://"` plus its signing host |
| `Strings.ContainsIff` | src/providers/bedrock.rs:50 | `contains` holds exactly when the pattern occurs at some index |
| `Strings.JoinSplit` | src/providers/bedrock.rs:146 | joining the pieces of `split(sep)` with `sep` gives the string back |
| `Strings.LastPiece` | src/providers/bedrock.rs:146 | the last piece of `split('/')` has no `/`, ends the string, and is preceded by `/` unless it is the whole string |
| `Http.GetFirstSpec` | src/providers/bedrock.rs:161 | `HeaderMap::get` returns the value of the earliest entry with that name, and nothing exactly when no entry has it |
| `Http.LastValueOfSpec` | src/providers/bedrock.rs:132-135 | the last value under a name is that of the latest entry with it, and nothing exactly when no entry has it |
| `Http.InsertAllLastWins` | src/providers/bedrock.rs:134 | inserting entries in order keeps, for each name, the last inserted value, and leaves other names of the starting map alone |
| `Proxy.BaseUrl` | src/proxy.rs:40-48 | an origin exactly for `openai`, `anthropic` and `groq`, each an `https://api.` URL; every other name is `UnsupportedProvider` |
| `Proxy.SplitBuildUrl` | src/proxy.rs:50-57 | the URL is `base + path`, then `?query` when a query exists; splitting at the first `?` gives back `base + path` and the query |
| `Proxy.RequestHeaders` | src/proxy.rs:68-125 | succeeds exactly when `AuthValue` does, with exactly `content-type: application/json` and one `authorization` entry; otherwise fails with `AuthValue`'s error |
| `Proxy.AuthOnlyForBearerProviders` | src/proxy.rs:76-124 | only `openai` and `groq` ever get an authorization value; `anthropic` is always `UnsupportedProvider` at this step |
| `Proxy.OpenAiKeyPriority` | src/proxy.rs:77-105 | for `openai` a valid gateway key yields `Bearer <key>` whatever `authorization` holds; without one, the passthrough rule is the same as Groq's |
| `Proxy.GroqIgnoresGatewayKey` | src/proxy.rs:106-122 | for `groq` adding an `x-magicapi-api-key` entry changes nothing, and without `authorization` the result is `MissingApiKey` |
| `Proxy.MissingApiKeyIff` | src/proxy.rs:101-122 | `MissingApiKey` exactly when every credential header of the provider is missing or not valid text |
| `Proxy.IsEventStream` | src/proxy.rs:146-149 | streaming exactly when the first `content-type` value is present, valid text, and has `text/event-stream` at some index |
| `Proxy.ClassificationReadsFirstContentType` | src/proxy.rs:146-149 | two upstream header lists with the same first `content-type` value are classified alike, whatever other headers they hold |
| `Proxy.ClassificationByContentType` | src/proxy.rs:146-149 | a header of another name placed in front leaves the classification unchanged, and `text/event-stream` followed by any parameter suffix streams |
| `Proxy.CopyHeaders` | src/proxy.rs:193-204 | the loop never fails and yields the `insert` of every entry whose value and name convert, in order |
| `Proxy.ConvertibleMembers` | src/proxy.rs:194-203 | the copied entries are exactly the upstream entries whose value and name convert |
| `Proxy.ConvertibleLast` | src/proxy.rs:153-164 | a name is copied exactly when some entry with that name converts; its copied value is that of the latest upstream entry with that name that converts, since `insert` replaces |
| `Proxy.ConvertibleLastValue` | src/proxy.rs:194-203 | the convertible entries keep the upstream order: their last value under a name is that of the latest upstream entry with that name that converts, and there is none exactly when no such entry converts |
| `Proxy.RelayChunks` | src/proxy.rs:168-180 | the relayed stream has one item per chunk in the same order: data unchanged, a read error as an I/O error carrying it |
| `Proxy.RelayAppend` | src/proxy.rs:168-180 | relaying commutes with concatenation: later chunks are relayed later, none merged or reordered |
| `Proxy.ReadAll` | src/proxy.rs:207 | reading the whole body fails, with `UpstreamFailure`, exactly when some chunk is a read error |
| `Proxy.StreamMatchesBuffered` | src/proxy.rs:168-180 | without read errors the relayed stream delivers the same bytes as the buffered read |
| `Proxy.StreamingResponseShape` | src/proxy.rs:183-190 | the streaming response keeps the upstream status, has only `content-type: text/event-stream`, `cache-control: no-cache` and `connection: keep-alive` as headers, carries the copied headers as an extension, and has one body item per chunk |
| `Proxy.BufferedResponse` | src/proxy.rs:209-218 | the builder loop gives the upstream status, the full body, and every copied header exactly once with its value |
| `Proxy.ProxyRequest` | src/proxy.rs:28-220 | an unknown provider is `UnsupportedProvider` with nothing sent; a request is sent exactly when provider, method and credentials pass, and it carries the assembled URL, the two outbound headers and the inbound body; otherwise the first failing check's error is returned; a send failure is `UpstreamFailure`; an event-stream reply gives the streaming response; any other reply gives the buffered response, or `UpstreamFailure` when its body cannot be read |

## Left out

- The `CLIENT` static and `src/proxy/client.rs`: they only build and tune the HTTP client (pool sizes, TLS, keep-alive, timeouts). That is library configuration, and `src/proxy/client.rs` is not part of this model.
- The network: `send().await`, `response.bytes()` and `bytes_stream()` are replaced by the `network` parameter. Timeouts, cancellation and backpressure are not modelled.
- Reading the inbound body (`body::to_bytes`). It can fail in the source, after the credential step and before the send; the model forwards `request.body` as given.
- JSON parsing and serialisation in `prepare_request_body`, including its unused `model` local. The model starts from a parsed value and stops at the translated value.
- Floating point. `as_f64` is modelled as an exact conversion to a real, so the rounding of large integers to `f64` is not captured. No numeric property is claimed.
- The validity rules of the `http` crate (`to_str`, `from_str`, `from_bytes`, `HeaderName::from_bytes`) and of `Method::from_str`. They are parameters.
  - Header values are written as text, one character per byte.
  - Names are assumed to be lower-case already, as `HeaderName` stores them.
- `StatusCode::from_u16` cannot fail in the model, because statuses are 100..999 as the HTTP client reports them.
- The iteration order of header maps that the gateway builds. Only which names and values they hold is modelled, so the order of the buffered response's headers is not stated.
- What the web server does with the relayed stream after an error item (it ends the response). The model states the mapped stream only.
- Logging, `async_trait` and the unused `Arc<AppConfig>` parameter.
- Request signing itself. The source only extracts the credentials; it computes no signature.
- `Bedrock.AnthropicScenario`: states the prompt of the worked example, not that the model name `anthropic.claude-v2` routes to Anthropic. That routing is `Bedrock.AnthropicRoute` for any model without `titan`.
