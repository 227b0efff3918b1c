/**
 * Content negotiation (src/extract.rs): request headers are reduced to three
 * flags, and the flags decide whether a handler answers with HTML or JSON.
 */
module Extract {
  import opened Wrappers
  import opened Http

  datatype RequestMode = Html | Json

  datatype SilcrowRequest = SilcrowRequest(isSilcrow: bool, acceptsHtml: bool, acceptsJson: bool) {

    /** `preferred_mode`: a Silcrow request follows its Accept header (HTML first, then JSON);
        otherwise an HTML-accepting client gets HTML and everything else falls back to JSON. */
    function PreferredMode(): (m: RequestMode)
      ensures m == Html <==> acceptsHtml
    {
      if isSilcrow && acceptsHtml then Html
      else if isSilcrow && acceptsJson then Json
      else if acceptsHtml then Html
      else Json
    }
  }

  /** Neither `isSilcrow` nor `acceptsJson` can change the mode; only `acceptsHtml` does. */
  lemma ModeDependsOnlyOnHtml(a: SilcrowRequest, b: SilcrowRequest)
    requires a.acceptsHtml == b.acceptsHtml
    ensures a.PreferredMode() == b.PreferredMode()
  {
  }

  /** The cases the source's own tests pin down. */
  lemma PreferredModeCases()
    ensures SilcrowRequest(true, true, true).PreferredMode() == Html
    ensures SilcrowRequest(true, false, true).PreferredMode() == Json
    ensures SilcrowRequest(true, false, false).PreferredMode() == Json
    ensures SilcrowRequest(false, true, false).PreferredMode() == Html
    ensures SilcrowRequest(false, false, false).PreferredMode() == Json
  {
  }

  /** `from_request_parts` can fail only with this rejection type; it never does. */
  datatype Rejection = Rejection(status: nat, message: string)

  /** The Accept header as text: its first value, or "" when it is missing or not visible ASCII. */
  function AcceptText(headers: HeaderMap<string>): (s: string)
    ensures !ContainsKey(headers, "accept") ==> s == ""
    ensures ContainsKey(headers, "accept") && VisibleAscii(headers["accept"][0]) ==> s == headers["accept"][0]
    ensures ContainsKey(headers, "accept") && !VisibleAscii(headers["accept"][0]) ==> s == ""
  {
    match Get(headers, "accept")
    case Some(v) => if VisibleAscii(v) then v else ""
    case None => ""
  }

  /** `from_request_parts`: the flags are the presence of `silcrow-target` and two substring
      tests on the Accept text; extraction always succeeds. */
  function FromRequestParts(headers: HeaderMap<string>): (r: Result<SilcrowRequest, Rejection>)
    ensures r.Ok?
    ensures r.value.isSilcrow <==> ContainsKey(headers, "silcrow-target")
    ensures r.value.acceptsHtml <==> exists i :: OccursAt(AcceptText(headers), "text/html", i)
    ensures r.value.acceptsJson <==> exists i :: OccursAt(AcceptText(headers), "application/json", i)
  {
    var accept := AcceptText(headers);
    ContainsIff(accept, "text/html");
    ContainsIff(accept, "application/json");
    Ok(SilcrowRequest(
      ContainsKey(headers, "silcrow-target"),
      Contains(accept, "text/html"),
      Contains(accept, "application/json")))
  }

  /** Without a readable Accept header, every request is answered with JSON, Silcrow or not. */
  lemma NoAcceptMeansJson(headers: HeaderMap<string>)
    requires AcceptText(headers) == ""
    ensures FromRequestParts(headers).value.PreferredMode() == Json
  {
  }

  /** The extractor test: `Accept: text/html,application/json` together with `silcrow-target`. */
  lemma ExtractorExample()
    ensures FromRequestParts(map["accept" := ["text/html,application/json"], "silcrow-target" := ["#main"]])
         == Ok(SilcrowRequest(true, true, true))
  {
    var h := map["accept" := ["text/html,application/json"], "silcrow-target" := ["#main"]];
    var accept := "text/html,application/json";
    assert AcceptText(h) == accept;
    assert OccursAt(accept, "text/html", 0);
    assert accept[10..10 + |"application/json"|] == "application/json";
    assert OccursAt(accept, "application/json", 10);
  }
}
