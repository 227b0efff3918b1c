/**
 * The ten typed Silcrow headers of src/headers.rs. Each one wraps a single
 * string; decoding reads the first value, encoding emits the string only when
 * it is a valid header value.
 */
module Headers {
  import opened Wrappers
  import opened Http

  /** One constructor per `define_string_header!` use. */
  datatype HeaderKind =
    | SilcrowTarget
    | SilcrowCache
    | SilcrowTrigger
    | SilcrowRetarget
    | SilcrowPush
    | SilcrowPatch
    | SilcrowInvalidate
    | SilcrowNavigate
    | SilcrowSse
    | SilcrowWs

  /** The `NAME` constant of each header type. */
  function Name(k: HeaderKind): (n: string)
    ensures |n| > |"silcrow-"| && n[..|"silcrow-"|] == "silcrow-"
  {
    match k
    case SilcrowTarget => "silcrow-target"
    case SilcrowCache => "silcrow-cache"
    case SilcrowTrigger => "silcrow-trigger"
    case SilcrowRetarget => "silcrow-retarget"
    case SilcrowPush => "silcrow-push"
    case SilcrowPatch => "silcrow-patch"
    case SilcrowInvalidate => "silcrow-invalidate"
    case SilcrowNavigate => "silcrow-navigate"
    case SilcrowSse => "silcrow-sse"
    case SilcrowWs => "silcrow-ws"
  }

  /** The header type a name belongs to, if any of the ten. */
  function KindOfName(n: string): Option<HeaderKind> {
    if n == "silcrow-target" then Some(SilcrowTarget)
    else if n == "silcrow-cache" then Some(SilcrowCache)
    else if n == "silcrow-trigger" then Some(SilcrowTrigger)
    else if n == "silcrow-retarget" then Some(SilcrowRetarget)
    else if n == "silcrow-push" then Some(SilcrowPush)
    else if n == "silcrow-patch" then Some(SilcrowPatch)
    else if n == "silcrow-invalidate" then Some(SilcrowInvalidate)
    else if n == "silcrow-navigate" then Some(SilcrowNavigate)
    else if n == "silcrow-sse" then Some(SilcrowSse)
    else if n == "silcrow-ws" then Some(SilcrowWs)
    else None
  }

  /** Every header name leads back to its own type, so the ten names are pairwise distinct. */
  lemma NamesDistinct(a: HeaderKind, b: HeaderKind)
    ensures KindOfName(Name(a)) == Some(a)
    ensures a != b ==> Name(a) != Name(b)
  {
    assert KindOfName(Name(b)) == Some(b);
  }

  /** A value of one of the typed headers: the header type and its string. */
  datatype StringHeader = StringHeader(kind: HeaderKind, value: string)

  datatype HeaderError = Invalid

  /** `Header::decode`: the first value, if there is one and it reads back as text. */
  function Decode(kind: HeaderKind, values: seq<string>): (r: Result<StringHeader, HeaderError>)
    ensures r.Ok? <==> values != [] && VisibleAscii(values[0])
    ensures r.Ok? ==> r.value == StringHeader(kind, values[0])
  {
    if values == [] then Err(Invalid)
    else if !VisibleAscii(values[0]) then Err(Invalid)
    else Ok(StringHeader(kind, values[0]))
  }

  /** `Header::encode`: appends the string when it is a valid header value, nothing otherwise. */
  function Encode(h: StringHeader, values: seq<string>): (r: seq<string>)
    ensures |r| == |values| + (if ValidHeaderValue(h.value) then 1 else 0)
    ensures r[..|values|] == values
    ensures |r| > |values| ==> r[|values|] == h.value
  {
    if ValidHeaderValue(h.value) then values + [h.value] else values
  }

  /** Decoding ignores every value after the first. */
  lemma DecodeIgnoresRest(kind: HeaderKind, v: string, rest: seq<string>)
    ensures Decode(kind, [v] + rest) == Decode(kind, [v])
  {
  }

  /** A header whose string is visible ASCII survives encoding into an empty value list and decoding back. */
  lemma DecodeEncode(h: StringHeader)
    requires VisibleAscii(h.value)
    ensures Decode(h.kind, Encode(h, [])) == Ok(h)
  {
    VisibleAsciiIsValid(h.value);
  }

  /** A string that is a valid value but not visible ASCII is emitted, yet does not decode back. */
  lemma EncodeWithoutDecode(h: StringHeader)
    requires ValidHeaderValue(h.value) && !VisibleAscii(h.value)
    ensures Encode(h, []) == [h.value]
    ensures Decode(h.kind, Encode(h, [])).Err?
  {
  }
}
