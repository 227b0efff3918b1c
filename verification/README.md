# Pilcrow server protocol layer, in Dafny

This project models the Rust side of Pilcrow, an axum toolkit whose responses are read by the
Silcrow browser runtime. It covers the following parts of the server:

- **Content negotiation.** `SilcrowRequest` is extracted from the request headers, and `preferred_mode` picks between HTML and JSON.
- **The `Responses` builder and `select`.** They run only the producer for the chosen format, or answer 406.
- **The `respond!` macro.** Each invocation provides up to two arms and an optional shared toast.
- **Response shaping.**
  - `BaseResponse` holds headers, cookies and toasts. The modifiers `with_header`, `no_cache` and `with_toast` change it in place.
  - `apply_to_response` and `apply_toast_cookies` copy that state into a response.
  - `into_response` exists for HTML, JSON and navigate responses. JSON bodies carry their toasts under `_toasts`. HTML and navigate responses carry them in a `silcrow_toasts` cookie.
- **The WebSocket wire layer.** `WsRoute`, the five-variant `WsEvent` with its `"type"`-tagged JSON form, and the frame loop of `WsStream::recv`.
- **Server-sent events.** `SseRoute`, `SilcrowEvent` and its conversion to an axum `Event`, made of an event name and a JSON payload.
- **The ten `silcrow-*` typed headers.** They are built by `define_string_header!`.

Modules: `Wrappers` (Option/Result), `Json` (a JSON value), `Http` (header-value validity, the
header map, substring search), `Headers`, `Extract`, `Response`, `Select`, `Macros`, `Ws`, `Sse`.

How the model maps the source:

- **Code that changes state in place.** The `BaseResponse` modifiers become a Dafny class whose methods update its fields. `apply_to_response` keeps its two loops. `WsStream::recv` keeps its loop over the items the socket delivers. Each method is proved equal to a pure specification function. The properties are lemmas about those functions.
- **Pure code.** Negotiation, `select`, event construction and encoding are functions.
- **Serialisation outcomes.** A serialisation outcome the source computes with serde appears as a parameter. For example, `JsonResponse` holds the `Option` result of `serde_json::to_value`, and `None` means it failed.

On the wire, `WsEvent` is tagged under `"type"` with snake_case variant names. `target` is
required on patch, html and invalidate events (src/ws.rs:62-83). The SSE events are named
`patch` and `html`, and the html payload carries its markup under the key `html` (src/sse.rs:62-88).

## Model

| member | source | states |
|---|---|---|
| Http.Get | src/extract.rs:40-44 | `HeaderMap::get` yields the first value stored under a name, and nothing when there is none |
| Http.Insert | src/response.rs:31-33 | `insert` replaces every value under the name with the single new value; other names keep theirs |
| Http.Append | src/response.rs:36-39 | `append` adds the value after the existing ones under that name; other names keep theirs |
| Http.VisibleAsciiIsValid | src/headers.rs:25-31 | every string `to_str` accepts is also accepted by `HeaderValue::from_str` |
| Http.ContainsIff | src/extract.rs:46-47 | the recursive `str::contains` is true exactly when the pattern occurs at some position |
| Headers.Name | src/headers.rs:11-18 | every typed header's name starts with `silcrow-` |
| Headers.NamesDistinct | src/headers.rs:40-49 | the ten names are pairwise distinct and each maps back to its header |
| Headers.Decode | src/headers.rs:20-27 | decoding succeeds exactly when there is a first value and it is visible ASCII, and then yields that value |
| Headers.Encode | src/headers.rs:29-33 | encoding appends one value exactly when the string is a valid header value, leaving earlier values |
| Headers.DecodeIgnoresRest | src/headers.rs:24 | only the first value is consulted; later values never change the outcome |
| Headers.DecodeEncode | src/headers.rs:20-33 | a visible-ASCII header survives encode then decode unchanged |
| Headers.EncodeWithoutDecode | src/headers.rs:25-31 | a valid value holding a non-ASCII character is emitted by encode but rejected by decode |
| Extract.SilcrowRequest.PreferredMode | src/extract.rs:62-80 | the mode is HTML exactly when the client accepts HTML, Silcrow or not |
| Extract.ModeDependsOnlyOnHtml | src/extract.rs:62-80 | two requests with the same `acceptsHtml` get the same mode |
| Extract.PreferredModeCases | src/extract.rs:87-163 | the five negotiation cases of the unit tests |
| Extract.AcceptText | src/extract.rs:40-44 | the Accept text is its first value when that is visible ASCII, and "" otherwise |
| Extract.FromRequestParts | src/extract.rs:35-54 | extraction never fails; `isSilcrow` iff `silcrow-target` is present; each accept flag iff its media type occurs in the Accept text |
| Extract.NoAcceptMeansJson | src/extract.rs:35-80 | without a readable Accept header every request is answered in JSON |
| Extract.ExtractorExample | src/extract.rs:131-152 | the extractor unit test, with both media types and `silcrow-target`, yields all three flags set |
| Response.ToastsJson | src/response.rs:126 | `json!(toasts)` is an array with one `{"message", "level"}` object per toast, in list order |
| Response.ToastsRoundTrip | src/response.rs:13-17 | a toast list read back from its JSON array is the same list, in order |
| Response.InjectToasts | src/response.rs:124-138 | with no toasts the payload is untouched; an object gains `_toasts` and keeps its other keys; any other value is wrapped as exactly `data` plus `_toasts` |
| Response.InjectedToastsRecoverable | src/response.rs:124-138 | a client recovers every toast from the injected body; it recovers the payload when the payload is not an object (from `data`), or is an object without its own `_toasts` key (the body minus `_toasts`); an object's own `_toasts` is overwritten |
| Response.InjectionShapesOverlap | src/response.rs:128-137 | `{"data": v}` and a non-object `v` produce the same body, so the wrap is not distinguishable |
| Response.PlainResponse | src/select.rs:75-79 | `(StatusCode, &str).into_response()` has the given status, the text as a plain-text body and only a text/plain content type |
| Response.AppliedAddsNoToastCookie | src/response.rs:29-41 | applying base headers and cookies never adds a toast cookie |
| Response.ToastCookieAppended | src/response.rs:45-61 | the toast cookie is appended after the existing cookies exactly when there are toasts |
| Response.ToastCookieOnlyWithToasts | src/response.rs:101-163 | HTML and navigate responses carry one toast cookie holding the whole list exactly when there are toasts; JSON responses carry none |
| Response.StatusAndBody | src/response.rs:101-163 | navigate is 303; HTML is 200 with the markup; JSON is 200 with the injected payload, or a bare 500 when the data does not serialise |
| Response.BaseHeadersReachResponse | src/response.rs:29-33 | every base header other than `set-cookie` reaches HTML and navigate responses with exactly its value, and JSON responses too when the data serialises; `set-cookie` is excluded because cookies are appended after it, and a JSON response whose data fails to serialise is a bare 500 without base headers |
| Response.OwnHeadersReachResponse | src/response.rs:101-163 | navigate's `location` is the path and the HTML and JSON content types arrive as set, unless the base sets the same header, whose value then replaces them |
| Response.BaseResponse.constructor | src/response.rs:19-24 | the default base has no headers, cookies or toasts |
| Response.BaseResponse.WithHeader | src/response.rs:71-76 | a valid value sets or replaces the key; an invalid one changes nothing; cookies and toasts stay |
| Response.BaseResponse.NoCache | src/response.rs:78-80 | `silcrow-cache: no-cache` is always set; nothing else changes |
| Response.BaseResponse.WithToast | src/response.rs:82-88 | the toast is added after the earlier ones; headers and cookies stay |
| Response.BaseResponse.ApplyToResponse | src/response.rs:29-41 | the loops give every base header inserted over the response's own, then the valid cookies appended in order |
| Response.BaseResponse.ApplyToastCookies | src/response.rs:45-61 | the response gains the toast cookie exactly when there are toasts |
| Response.HtmlResponse.IntoResponse | src/response.rs:101-108 | the HTML outcome: 200 markup, base applied, toast cookie |
| Response.JsonResponse.IntoResponse | src/response.rs:116-144 | the JSON outcome: bare 500 on failed serialisation, otherwise toasts injected and base applied without a toast cookie |
| Response.NavigateResponse.IntoResponse | src/response.rs:152-164 | the navigate outcome: 303 to the path, base applied, toast cookie |
| Response.NewHtml | src/response.rs:232-237 | `html(data)` holds the markup and a fresh empty base |
| Response.NewJson | src/response.rs:239-244 | `json(data)` holds the data and a fresh empty base |
| Response.NewNavigate | src/response.rs:246-251 | `navigate(path)` holds the path and a fresh empty base |
| Select.Responses.WithHtml | src/select.rs:36-45 | registers the HTML producer and keeps the JSON one |
| Select.Responses.WithJson | src/select.rs:48-56 | registers the JSON producer and keeps the HTML one |
| Select.New | src/select.rs:28-33 | a new builder has no producers |
| Select.Select | src/select.rs:66-94 | the answer is the preferred mode's producer's output, `Err` included, whatever the other slot holds; without that producer, `Ok` 406 with the message naming the missing format |
| Select.Producer.constructor | src/select.rs:43 | a producer boxed from a closure holds that closure's output and has not been called |
| Select.Producer.Run | src/select.rs:43 | calling a producer yields its output and counts one more call |
| Select.Execute | src/select.rs:66-94 | `select` calls the chosen producer exactly once, leaves every other producer's call count unchanged, and returns what `Select.Select` specifies |
| Select.BothProducersFollowAccept | src/select.rs:66-94 | with both producers, HTML-accepting requests run the HTML one and all others the JSON one |
| Select.MissingHtmlIsNotAcceptable | src/select.rs:70-81 | an HTML request with only a JSON producer gets 406, not JSON |
| Macros.Respond | src/macros.rs:41-172 | every arm yields `Ok`; the chosen arm gets the shared toast after its own and is converted; `raw` behaves as `json(value)`; a missing arm gives 406 "HTML required"/"JSON required"; headers and cookies never change and the arm not chosen keeps its toasts |
| Ws.RouteIdentity | src/ws.rs:20-43 | a route gives back its path; two routes are equal iff their paths are |
| Ws.NewRoute | src/ws.rs:22-25 | `WsRoute::new` keeps the path it is given |
| Ws.NewPatch | src/ws.rs:92-98 | a patch event holds the target and the serialised data, or `null` when serialisation fails |
| Ws.NewHtml | src/ws.rs:106-111 | an html event holds the markup and target unchanged |
| Ws.NewInvalidate | src/ws.rs:119-123 | an invalidate event holds the target |
| Ws.NewNavigate | src/ws.rs:131-133 | a navigate event holds the path |
| Ws.NewCustom | src/ws.rs:141-147 | a custom event holds the name and the serialised data, or `null` |
| Ws.Encode | src/ws.rs:62-83 | every event encodes to an object whose `"type"` is its snake_case variant name and whose other keys are exactly that variant's fields (`target`/`data`, `target`/`markup`, `target`, `path`, `event`/`data`) with their values |
| Ws.DecodeEncode | src/ws.rs:62-83 | every event decodes back from its encoding |
| Ws.DecodeSound | src/ws.rs:62-63 | whatever decodes holds every key of the decoded event's encoding with exactly its value, so a missing or mistyped field is rejected |
| Ws.DecodeComplete | src/ws.rs:62-63 | an object holding an event's encoding, plus any other keys, decodes to that event |
| Ws.EncodeInjective | src/ws.rs:62-83 | distinct events never share an encoding |
| Ws.Decode | src/ws.rs:62-63 | the derived `Deserialize`, object form only: a non-object is rejected, and so is an object without a string `"type"`; anything that decodes is an object whose `"type"` names the decoded variant |
| Ws.DecodeIgnoresUnknownKeys | src/ws.rs:62-83 | a key that no variant reads never changes the outcome of decoding |
| Ws.FirstNonControl | src/ws.rs:236-247 | the first item that is not a ping or pong; everything before it is one |
| Ws.DecodeText | src/ws.rs:241-243 | a text frame yields the decoded event, or `Deserialize` carrying the reason when it is not JSON or not an event |
| Ws.RecvClassifies | src/ws.rs:235-250 | `recv` skips pings and pongs, returns `None` at the end of the stream or on a transport error, and otherwise the decoded text, `Closed` or `NonText` |
| Ws.WsStream.constructor | src/ws.rs:214-216 | a new stream reads from the first item |
| Ws.WsStream.Recv | src/ws.rs:235-250 | the loop returns what `RecvSpec` specifies and leaves the stream just past the item it classified |
| Sse.RouteIdentity | tests/sse_events.rs:12-39 | a route gives back its path; two routes are equal iff their paths are |
| Sse.NewRoute | src/sse.rs:11 | `SseRoute::new` keeps the path it is given |
| Sse.NewPatch | src/sse.rs:41-49 | a patch event holds the target and the serialised data, or `null` |
| Sse.NewHtml | src/sse.rs:52-59 | an html event holds markup and target unchanged |
| Sse.EventName | src/sse.rs:62-85 | the event name is "patch" for patch events and "html" for html events |
| Sse.Payload | src/sse.rs:65-83 | the payload has exactly the keys `target` and `data`, or exactly `target` and `html` |
| Sse.IntoEvent | src/sse.rs:62-88 | the event carries its name and the payload, or the name and "{}" when `json_data` fails |
| Sse.IntoEventRoundTrip | src/sse.rs:62-88 | a client reading the event back gets the original event |
| Sse.FallbackCarriesNothing | src/sse.rs:73-83 | the fallback event keeps its name but carries nothing a client can apply |
| Sse.IntoEventInjective | src/sse.rs:62-88 | distinct events never convert to the same SSE event |
| Sse.ExampleEvents | src/sse.rs:65-83 | the events of the unit tests, as the client receives them |

## Left out

- The Silcrow browser runtime (the JavaScript hub, DOM patching, navigation, toasts on the client) is not part of this model.
- I/O and async code are left out: `WsStream::send`, `WsStream::close`, the `ws()` upgrade and the `sse()` keep-alive wrapper. They are network I/O over axum. The socket's output is the `incoming` sequence given to `WsStream`.
- Text rendering and escaping done by foreign crates are left out:
  - `Cookie::to_string`: a cookie is the text it renders to.
  - URL-encoding of the toast cookie and its `Path=/; SameSite=Lax` attributes: the toast cookie is a structured header value holding the JSON of the list.
  - JSON text: bodies and payloads are JSON values, and a text frame is the JSON value it parses to.
- Floating-point JSON numbers are left out; `Json.JsonValue` numbers are integers.
- serde's sequence form for `WsEvent` is left out. In that form, a JSON array holds the tag first and then the fields in declaration order. Decoding is modelled on the object form only. `Ws.DecodeError` names one reason for a failure and does not reproduce serde's choice among several.
- Ws.DecodeText: the `Deserialize` variant carries a model reason in place of `serde_json::Error`.
- Response.BaseResponse: headers are single-valued (`map<string, string>`). Through its builders a key never holds more than one value, because `with_header` uses `insert`. The `headers` field is public, though, so a caller can `append` to it directly. Base headers with several values under one name are not represented.
- Response.BaseResponse.WithHeader: the panic that `HeaderMap::insert` raises for a key that is not a valid header name is left out.
- Response.NavigateResponse.IntoResponse: the panic inside `Redirect::to` for a path that is not a valid header value is left out. The location is stored as given.
- Macros.Respond: the arms are narrowed to the responses of `src/response.rs`. The HTML arm is an `html(..)` response, and the JSON arm is a `json(..)` response or a `raw` value. The macro accepts any `ResponseExt` in an arm that has a shared toast, and any `IntoResponse` in an arm without one, for example `html => navigate("/x")`. The choice between arms, the added toast and the 406 answers are the same for every arm type.
- Macros.Respond: the arm expressions are taken as already built. The unselected arm is not evaluated in the macro; in the model it is merely left unchanged. Its side effects beyond the response are not represented.
- Select.Producer: a producer is the boxed closure after its `into_response` mapping. Producing `R` and converting it are one step. Its only observable effect is its call count; other side effects of a closure are not represented.
- Ws.WsStream.Recv: the doc comment on `WsRecvError::NonText` says pings and pongs give `NonText`. The code skips them, and the model follows the code.
- Modifiers that tests call but `src/response.rs` does not define (`retarget`, `push_history`, `trigger_event`, and the like) are not part of this model.
- `define_route!` and `serialize_or_null` are not part of this model. `Sse.SseRoute` is declared at src/sse.rs:11 and follows the way tests/sse_events.rs:12-39 uses it: built from a path, read back through `path()`, `Deref` and `AsRef`, and compared by its path. `serialize_or_null`'s outcome is a parameter, as for `serde_json::to_value`.
