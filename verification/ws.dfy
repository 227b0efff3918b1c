/**
 * The WebSocket wire layer (src/ws.rs): typed routes, the five-variant
 * `WsEvent` with its `"type"`-tagged JSON form, and the classification loop
 * of `WsStream::recv`.
 */
module Ws {
  import opened Wrappers
  import opened Json

  /** `WsRoute`: a route path used both as the axum route and as a header value. */
  datatype WsRoute = WsRoute(path: string) {
    /** `path()`, and equally `Deref` and `AsRef<str>`. */
    function Path(): string {
      path
    }
  }

  /** `WsRoute::new`. */
  function NewRoute(path: string): (r: WsRoute)
    ensures r.Path() == path
  {
    WsRoute(path)
  }

  /** A route gives back the path it was made from, and two routes are equal exactly when
      their paths are. */
  lemma RouteIdentity(a: string, b: string)
    ensures NewRoute(a).Path() == a
    ensures NewRoute(a) == NewRoute(b) <==> a == b
  {
  }

  datatype WsEvent =
    | Patch(target: string, data: JsonValue)
    | Html(target: string, markup: string)
    | Invalidate(target: string)
    | Navigate(path: string)
    | Custom(event: string, data: JsonValue)

  /** `WsEvent::patch`: `data` is the outcome of `serde_json::to_value`; a failure stores `null`. */
  function NewPatch(data: Option<JsonValue>, target: string): (e: WsEvent)
    ensures e.Patch? && e.target == target
    ensures e.data == if data.Some? then data.value else Null
  {
    Patch(target, data.GetOr(Null))
  }

  /** `WsEvent::html`. */
  function NewHtml(markup: string, target: string): (e: WsEvent)
    ensures e.Html? && e.target == target && e.markup == markup
  {
    Html(target, markup)
  }

  /** `WsEvent::invalidate`. */
  function NewInvalidate(target: string): (e: WsEvent)
    ensures e.Invalidate? && e.target == target
  {
    Invalidate(target)
  }

  /** `WsEvent::navigate`. */
  function NewNavigate(path: string): (e: WsEvent)
    ensures e.Navigate? && e.path == path
  {
    Navigate(path)
  }

  /** `WsEvent::custom`: as for `patch`, data that fails to serialise is stored as `null`. */
  function NewCustom(event: string, data: Option<JsonValue>): (e: WsEvent)
    ensures e.Custom? && e.event == event
    ensures e.data == if data.Some? then data.value else Null
  {
    Custom(event, data.GetOr(Null))
  }

  /** The snake_case variant name written under `"type"`. */
  function Tag(e: WsEvent): string {
    match e
    case Patch(_, _) => "patch"
    case Html(_, _) => "html"
    case Invalidate(_) => "invalidate"
    case Navigate(_) => "navigate"
    case Custom(_, _) => "custom"
  }

  /** The derived `Serialize` with `#[serde(tag = "type", rename_all = "snake_case")]`. */
  function Encode(e: WsEvent): (v: JsonValue)
    ensures v.Obj? && "type" in v.fields && v.fields["type"] == Str(Tag(e))
    ensures e.Patch? ==> (v.fields.Keys == {"type", "target", "data"} &&
      v.fields["target"] == Str(e.target) && v.fields["data"] == e.data)
    ensures e.Html? ==> (v.fields.Keys == {"type", "target", "markup"} &&
      v.fields["target"] == Str(e.target) && v.fields["markup"] == Str(e.markup))
    ensures e.Invalidate? ==> v.fields.Keys == {"type", "target"} && v.fields["target"] == Str(e.target)
    ensures e.Navigate? ==> v.fields.Keys == {"type", "path"} && v.fields["path"] == Str(e.path)
    ensures e.Custom? ==> (v.fields.Keys == {"type", "event", "data"} &&
      v.fields["event"] == Str(e.event) && v.fields["data"] == e.data)
  {
    match e
    case Patch(t, d) => Obj(map["type" := Str("patch"), "target" := Str(t), "data" := d])
    case Html(t, m) => Obj(map["type" := Str("html"), "target" := Str(t), "markup" := Str(m)])
    case Invalidate(t) => Obj(map["type" := Str("invalidate"), "target" := Str(t)])
    case Navigate(p) => Obj(map["type" := Str("navigate"), "path" := Str(p)])
    case Custom(ev, d) => Obj(map["type" := Str("custom"), "event" := Str(ev), "data" := d])
  }

  /** Why a value is not a `WsEvent`; `Syntax` stands for text that is not JSON at all. */
  datatype DecodeError =
    | Syntax
    | NotAnObject
    | MissingField(name: string)
    | InvalidType(name: string)
    | UnknownVariant(tag: string)

  /** A field the variant needs, of any JSON type. */
  function AnyField(v: JsonValue, name: string): (r: Result<JsonValue, DecodeError>)
    requires v.Obj?
    ensures r.Ok? <==> name in v.fields
    ensures r.Ok? ==> r.value == v.fields[name]
    ensures r.Err? ==> r.error == MissingField(name)
  {
    match Field(v, name)
    case Some(x) => Ok(x)
    case None => Err(MissingField(name))
  }

  /** A field the variant needs as a `String`: missing and mistyped are told apart. */
  function StringField(v: JsonValue, name: string): (r: Result<string, DecodeError>)
    requires v.Obj?
    ensures r.Ok? <==> name in v.fields && v.fields[name].Str?
    ensures r.Ok? ==> v.fields[name] == Str(r.value)
    ensures r.Err? ==> r.error == if name in v.fields then InvalidType(name) else MissingField(name)
  {
    match Field(v, name)
    case None => Err(MissingField(name))
    case Some(Str(x)) => Ok(x)
    case Some(_) => Err(InvalidType(name))
  }

  /** The derived `Deserialize`: an object whose `"type"` names a variant and which holds that
      variant's fields with the right JSON types; keys it does not know are ignored. */
  function Decode(v: JsonValue): (r: Result<WsEvent, DecodeError>)
    ensures !v.Obj? ==> r == Err(NotAnObject)
    ensures v.Obj? && ("type" !in v.fields || !v.fields["type"].Str?) ==> r.Err?
    ensures r.Ok? ==> v.Obj? && "type" in v.fields && v.fields["type"] == Str(Tag(r.value))
  {
    if !v.Obj? then Err(NotAnObject)
    else
      var tag :- StringField(v, "type");
      if tag == "patch" then
        var t :- StringField(v, "target");
        var d :- AnyField(v, "data");
        Ok(Patch(t, d))
      else if tag == "html" then
        var t :- StringField(v, "target");
        var m :- StringField(v, "markup");
        Ok(Html(t, m))
      else if tag == "invalidate" then
        var t :- StringField(v, "target");
        Ok(Invalidate(t))
      else if tag == "navigate" then
        var p :- StringField(v, "path");
        Ok(Navigate(p))
      else if tag == "custom" then
        var ev :- StringField(v, "event");
        var d :- AnyField(v, "data");
        Ok(Custom(ev, d))
      else Err(UnknownVariant(tag))
  }

  /** Every event decodes back from its own encoding. */
  lemma DecodeEncode(e: WsEvent)
    ensures Decode(Encode(e)) == Ok(e)
  {
    match e
    case Patch(t, d) => assert StringField(Encode(e), "type") == Ok("patch");
    case Html(t, m) => assert StringField(Encode(e), "type") == Ok("html");
    case Invalidate(t) => assert StringField(Encode(e), "type") == Ok("invalidate");
    case Navigate(p) => assert StringField(Encode(e), "type") == Ok("navigate");
    case Custom(ev, d) => assert StringField(Encode(e), "type") == Ok("custom");
  }

  /** Whatever decodes holds the whole encoding of the event it decodes to: every key the
      variant writes is present with exactly that value. So a missing or mistyped field, or
      any other value under one of them, is rejected. */
  lemma DecodeSound(v: JsonValue, e: WsEvent)
    requires Decode(v) == Ok(e)
    ensures v.Obj?
    ensures forall k :: k in Encode(e).fields ==> k in v.fields && v.fields[k] == Encode(e).fields[k]
  {
  }

  /** Conversely, an object that holds the encoding of an event, whatever else it holds,
      decodes to that event. */
  lemma DecodeComplete(v: JsonValue, e: WsEvent)
    requires v.Obj?
    requires forall k :: k in Encode(e).fields ==> k in v.fields && v.fields[k] == Encode(e).fields[k]
    ensures Decode(v) == Ok(e)
  {
    var enc := Encode(e);
    assert "type" in enc.fields;
    match e
    case Patch(t, d) => assert "target" in enc.fields && "data" in enc.fields;
    case Html(t, m) => assert "target" in enc.fields && "markup" in enc.fields;
    case Invalidate(t) => assert "target" in enc.fields;
    case Navigate(p) => assert "path" in enc.fields;
    case Custom(ev, d) => assert "event" in enc.fields && "data" in enc.fields;
  }

  /** Different events never share an encoding. */
  lemma EncodeInjective(a: WsEvent, b: WsEvent)
    requires Encode(a) == Encode(b)
    ensures a == b
  {
    DecodeEncode(a);
    DecodeEncode(b);
  }

  /** The keys some variant reads; every other key of an object is ignored. */
  const KNOWN_KEYS: set<string> := {"type", "target", "data", "markup", "path", "event"}

  /** Adding or changing a key that no variant reads never changes the outcome of decoding. */
  lemma DecodeIgnoresUnknownKeys(v: JsonValue, k: string, x: JsonValue)
    requires v.Obj? && k !in KNOWN_KEYS
    ensures Decode(Obj(v.fields[k := x])) == Decode(v)
  {
    var w := Obj(v.fields[k := x]);
    forall n | n in KNOWN_KEYS
      ensures StringField(w, n) == StringField(v, n) && AnyField(w, n) == AnyField(v, n)
    {
    }
  }

  /** `WsRecvError`. */
  datatype WsRecvError = Deserialize(cause: DecodeError) | Closed | NonText

  /** A WebSocket message; a text frame is represented by the JSON its text parses to, or
      `None` when the text is not JSON. */
  datatype Message = Text(parsed: Option<JsonValue>) | Binary | Ping | Pong | Close

  /** One result of the underlying `socket.recv()`: a message, or a transport error. */
  datatype Incoming = Frame(msg: Message) | TransportError

  predicate IsControl(item: Incoming) {
    item.Frame? && (item.msg.Ping? || item.msg.Pong?)
  }

  /** The first position at or after `from` that is not a ping or a pong (`|s|` if none). */
  function FirstNonControl(s: seq<Incoming>, from: nat): (j: nat)
    requires from <= |s|
    ensures from <= j <= |s|
    ensures forall k :: from <= k < j ==> IsControl(s[k])
    ensures j < |s| ==> !IsControl(s[j])
    decreases |s| - from
  {
    if from == |s| || !IsControl(s[from]) then from else FirstNonControl(s, from + 1)
  }

  /** A text frame's outcome: the event it decodes to, or `Deserialize`. */
  function DecodeText(parsed: Option<JsonValue>): (r: Result<WsEvent, WsRecvError>)
    ensures parsed.None? ==> r == Err(Deserialize(Syntax))
    ensures parsed.Some? && Decode(parsed.value).Ok? ==> r == Ok(Decode(parsed.value).value)
    ensures parsed.Some? && Decode(parsed.value).Err? ==> r == Err(Deserialize(Decode(parsed.value).error))
  {
    match parsed
    case None => Err(Deserialize(Syntax))
    case Some(v) =>
      match Decode(v)
      case Ok(e) => Ok(e)
      case Err(cause) => Err(Deserialize(cause))
  }

  /** The answer for one item that is not skipped; pings and pongs never reach it. */
  function Classify(item: Incoming): Option<Result<WsEvent, WsRecvError>> {
    match item
    case TransportError => None
    case Frame(Text(parsed)) => Some(DecodeText(parsed))
    case Frame(Close) => Some(Err(Closed))
    case Frame(Binary) => Some(Err(NonText))
    case Frame(_) => None
  }

  /** What one `recv` returns, and where the stream stands afterwards. */
  function RecvSpec(s: seq<Incoming>, from: nat): (Option<Result<WsEvent, WsRecvError>>, nat)
    requires from <= |s|
  {
    var j := FirstNonControl(s, from);
    if j == |s| then (None, j) else (Classify(s[j]), j + 1)
  }

  /** `recv` skips every ping and pong; at the first other item it returns `None` for the end of
      the stream or a transport error, the decoded event or `Deserialize` for text, `Closed` for
      a close frame and `NonText` for a binary one. */
  lemma RecvClassifies(s: seq<Incoming>, from: nat)
    requires from <= |s|
    ensures var (r, next) := RecvSpec(s, from);
      && from <= next <= |s|
      && (forall k :: from <= k < next - 1 ==> IsControl(s[k]))
      && (r.None? <==> FirstNonControl(s, from) == |s| || s[FirstNonControl(s, from)].TransportError?)
      && (r.Some? ==> var item := s[next - 1];
            item.Frame? && !IsControl(item) &&
            (item.msg.Text? ==> r.value == DecodeText(item.msg.parsed)) &&
            (item.msg.Close? ==> r.value == Err(Closed)) &&
            (item.msg.Binary? ==> r.value == Err(NonText)))
  {
  }

  lemma {:induction false} SkippedControl(s: seq<Incoming>, from: nat, c: nat)
    requires from <= c <= |s|
    requires forall k :: from <= k < c ==> IsControl(s[k])
    ensures FirstNonControl(s, from) == FirstNonControl(s, c)
    decreases c - from
  {
    if from < c {
      SkippedControl(s, from + 1, c);
    }
  }

  /** A typed stream over the items its socket will deliver, read from `cursor` on. */
  class WsStream {
    const incoming: seq<Incoming>
    var cursor: nat

    ghost predicate Valid()
      reads this
    {
      cursor <= |incoming|
    }

    /** `WsStream::new`. */
    constructor (incoming: seq<Incoming>)
      ensures Valid() && this.incoming == incoming && cursor == 0
    {
      this.incoming := incoming;
      cursor := 0;
    }

    /** `recv`: consumes items until one that is not a ping or pong, and classifies it. */
    method Recv() returns (r: Option<Result<WsEvent, WsRecvError>>)
      requires Valid()
      modifies this
      ensures Valid()
      ensures (r, cursor) == RecvSpec(incoming, old(cursor))
    {
      while true
        invariant old(cursor) <= cursor <= |incoming|
        invariant forall k :: old(cursor) <= k < cursor ==> IsControl(incoming[k])
        decreases |incoming| - cursor
      {
        SkippedControl(incoming, old(cursor), cursor);
        if cursor == |incoming| {
          return None;
        }
        var item := incoming[cursor];
        cursor := cursor + 1;
        match item {
          case TransportError => return None;
          case Frame(msg) =>
            match msg {
              case Text(parsed) => return Some(DecodeText(parsed));
              case Close => return Some(Err(Closed));
              case Ping =>
              case Pong =>
              case Binary => return Some(Err(NonText));
            }
        }
      }
    }
  }
}
