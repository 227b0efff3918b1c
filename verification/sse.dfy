/**
 * Server-sent events (src/sse.rs): a typed route and `SilcrowEvent`, which
 * becomes an SSE event whose name says how the client applies its JSON payload.
 */
module Sse {
  import opened Wrappers
  import opened Json

  /** `SseRoute`, as its `define_route!` invocation is used: built from a path and compared by it. */
  datatype SseRoute = SseRoute(path: string) {
    /** `path()`, and equally `Deref` and `AsRef<str>`. */
    function Path(): string {
      path
    }
  }

  /** `SseRoute::new`. */
  function NewRoute(path: string): (r: SseRoute)
    ensures r.Path() == path
  {
    SseRoute(path)
  }

  /** A route gives back its path, and two routes are equal exactly when their paths are. */
  lemma RouteIdentity(a: string, b: string)
    ensures NewRoute(a).Path() == a
    ensures NewRoute(a) == NewRoute(b) <==> a == b
  {
  }

  datatype EventKind =
    | PatchKind(data: JsonValue, target: string)
    | HtmlKind(markup: string, target: string)

  datatype SilcrowEvent = SilcrowEvent(kind: EventKind)

  /** `SilcrowEvent::patch`: `data` is the outcome of serialising the caller's value; a failure
      stores `null`. */
  function NewPatch(data: Option<JsonValue>, target: string): (e: SilcrowEvent)
    ensures e.kind.PatchKind? && e.kind.target == target
    ensures e.kind.data == if data.Some? then data.value else Null
  {
    SilcrowEvent(PatchKind(data.GetOr(Null), target))
  }

  /** `SilcrowEvent::html`: markup and target are kept as given. */
  function NewHtml(markup: string, target: string): (e: SilcrowEvent)
    ensures e.kind.HtmlKind? && e.kind.markup == markup && e.kind.target == target
  {
    SilcrowEvent(HtmlKind(markup, target))
  }

  /** The data line of an axum `Event`: JSON from `json_data`, or literal text from `data`. */
  datatype EventData = JsonData(payload: JsonValue) | TextData(text: string)

  /** An axum `Event` with its `event` name set. */
  datatype Event = Event(name: string, data: EventData)

  const FALLBACK_DATA := "{}"

  /** The event name the client dispatches on. */
  function EventName(kind: EventKind): (n: string)
    ensures n == "patch" <==> kind.PatchKind?
    ensures n == "html" <==> kind.HtmlKind?
  {
    match kind
    case PatchKind(_, _) => "patch"
    case HtmlKind(_, _) => "html"
  }

  /** The `json!` payload: exactly a target and either the data or the markup, the latter under
      the key "html". */
  function Payload(kind: EventKind): (p: JsonValue)
    ensures p.Obj? && "target" in p.fields && p.fields["target"] == Str(kind.target)
    ensures kind.PatchKind? ==> p.fields.Keys == {"target", "data"} && p.fields["data"] == kind.data
    ensures kind.HtmlKind? ==> p.fields.Keys == {"target", "html"} && p.fields["html"] == Str(kind.markup)
  {
    match kind
    case PatchKind(d, t) => Obj(map["target" := Str(t), "data" := d])
    case HtmlKind(m, t) => Obj(map["target" := Str(t), "html" := Str(m)])
  }

  /** `From<SilcrowEvent> for Event`. `jsonDataOk` is whether `json_data` manages to serialise the
      payload; when it does not, the event keeps its name and carries "{}". */
  function IntoEvent(e: SilcrowEvent, jsonDataOk: bool): (ev: Event)
    ensures ev.name == EventName(e.kind)
    ensures jsonDataOk ==> ev.data == JsonData(Payload(e.kind))
    ensures !jsonDataOk ==> ev.data == TextData(FALLBACK_DATA)
  {
    var payload := Payload(e.kind);
    if jsonDataOk then Event(EventName(e.kind), JsonData(payload))
    else Event(EventName(e.kind), TextData(FALLBACK_DATA))
  }

  /** How a client reads an event back: the name selects the variant and the payload must hold
      the fields that variant needs, with string target and markup. */
  function EventOf(ev: Event): Option<SilcrowEvent> {
    if !ev.data.JsonData? || !ev.data.payload.Obj? then None
    else
      var fields := ev.data.payload.fields;
      if "target" !in fields || !fields["target"].Str? then None
      else if ev.name == "patch" && "data" in fields then
        Some(SilcrowEvent(PatchKind(fields["data"], fields["target"].s)))
      else if ev.name == "html" && "html" in fields && fields["html"].Str? then
        Some(SilcrowEvent(HtmlKind(fields["html"].s, fields["target"].s)))
      else None
  }

  /** A converted event carries all of the original: reading it back gives the same event. */
  lemma IntoEventRoundTrip(e: SilcrowEvent)
    ensures EventOf(IntoEvent(e, true)) == Some(e)
  {
  }

  /** The fallback event keeps its name but carries nothing a client can apply. */
  lemma FallbackCarriesNothing(e: SilcrowEvent)
    ensures IntoEvent(e, false).name == IntoEvent(e, true).name
    ensures EventOf(IntoEvent(e, false)) == None
  {
  }

  /** Different events never convert to the same SSE event. */
  lemma IntoEventInjective(a: SilcrowEvent, b: SilcrowEvent)
    requires IntoEvent(a, true) == IntoEvent(b, true)
    ensures a == b
  {
    IntoEventRoundTrip(a);
    IntoEventRoundTrip(b);
  }

  /** The example events of the source's tests, as the client receives them. */
  lemma ExampleEvents()
    ensures IntoEvent(NewPatch(Some(Obj(map["count" := Num(42)])), "#stats"), true)
         == Event("patch", JsonData(Obj(map["target" := Str("#stats"), "data" := Obj(map["count" := Num(42)])])))
    ensures IntoEvent(NewHtml("<p>Updated</p>", "#content"), true)
         == Event("html", JsonData(Obj(map["target" := Str("#content"), "html" := Str("<p>Updated</p>")])))
  {
  }
}
