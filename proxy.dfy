/** `/reverse-proxy?url=...`: relays the request's method to `url`, then rewrites the
    response's header table in place, keeping from the upstream headers only
    `access-control-allow-methods`, dropping `x-powered-by` and setting four fixed
    headers, and sends the upstream text unchanged. Any failure answers 500. */
module ReverseProxy {
  import opened Prelude

  const AllowMethods: string := "access-control-allow-methods"
  const PoweredBy: string := "x-powered-by"
  const FailureMessage: string := "Could not get resource"

  /** A header as `setHeader` stored it: the name as written and its value. */
  datatype Header = Header(name: string, value: string)

  /** The response's header table, keyed by lower-cased name as Node keeps it. */
  type HeaderTable = map<string, Header>

  /** The outbound request: the inbound method, to the `url` query parameter. */
  datatype ProxyRequest = ProxyRequest(verb: string, url: string)

  /** What the upstream answered: its headers in iteration order and its text. */
  datatype Upstream = Upstream(headers: seq<(string, string)>, text: string)

  /** `setHeader(name, value)` on a table: replaces whatever the name held in any case. */
  function SetEntry(t: HeaderTable, name: string, value: string): HeaderTable
  {
    t[Lower(name) := Header(name, value)]
  }

  predicate IsAllowed(key: string)
  {
    Lower(key) == AllowMethods
  }

  /** `a` is the lower-case name `lower` written with any of its ASCII letters in
      upper case. */
  predicate SameIgnoringCase(a: string, lower: string)
  {
    && |a| == |lower|
    && forall i :: 0 <= i < |a| ==>
         a[i] == lower[i] || (IsUpperAscii(a[i]) && a[i] as int + 32 == lower[i] as int)
  }

  /** The test in the loop accepts exactly the spellings of `access-control-allow-methods`
      that differ from it only in the case of ASCII letters. */
  lemma AllowedIgnoringCase(key: string)
    ensures IsAllowed(key) <==> SameIgnoringCase(key, AllowMethods)
  {
    assert forall i :: 0 <= i < |AllowMethods| ==> !IsUpperAscii(AllowMethods[i]);
    if SameIgnoringCase(key, AllowMethods) {
      forall i | 0 <= i < |key|
        ensures Lower(key)[i] == AllowMethods[i]
      {
        if key[i] != AllowMethods[i] {
          assert (key[i] as int + 32) as char == AllowMethods[i];
        }
      }
    }
  }

  /** The position of the last allow-listed upstream header, if there is one. */
  function LastAllowed(upstream: seq<(string, string)>): (j: Option<nat>)
    ensures j.None? <==> forall i :: 0 <= i < |upstream| ==> !IsAllowed(upstream[i].0)
    ensures j.Some? ==>
      && j.value < |upstream| && IsAllowed(upstream[j.value].0)
      && forall i :: j.value < i < |upstream| ==> !IsAllowed(upstream[i].0)
  {
    if upstream == [] then None
    else if IsAllowed(upstream[|upstream| - 1].0) then Some(|upstream| - 1)
    else
      var j := LastAllowed(upstream[..|upstream| - 1]);
      assert forall i :: 0 <= i < |upstream| - 1 ==> upstream[..|upstream| - 1][i] == upstream[i];
      j
  }

  /** The table after the `forEach` over the upstream headers, which calls `setHeader`
      for each allow-listed one in turn. Only the last of them shows: the result is the
      table with that one header set, or the table unchanged when there is none. */
  function CopyAllowed(t: HeaderTable, upstream: seq<(string, string)>): (r: HeaderTable)
    ensures r == match LastAllowed(upstream)
      case None => t
      case Some(j) => t[AllowMethods := Header(upstream[j].0, upstream[j].1)]
    decreases |upstream|
  {
    if upstream == [] then t
    else
      var n := |upstream| - 1;
      var before := CopyAllowed(t, upstream[..n]);
      if IsAllowed(upstream[n].0) then SetEntry(before, upstream[n].0, upstream[n].1)
      else before
  }

  /** The headers every relayed response carries, whatever came back upstream. */
  function FixedHeaders(): HeaderTable
  {
    map[
      "content-type" := Header("Content-Type", "application/javascript"),
      "access-control-allow-origin" := Header("Access-Control-Allow-Origin", "*"),
      "access-control-allow-headers" := Header("Access-Control-Allow-Headers", "*"),
      "cache-control" := Header("Cache-Control", "public, max-age=86400")
    ]
  }

  /** The header table once the handler is done with it. */
  function Policy(t: HeaderTable, upstream: seq<(string, string)>): (r: HeaderTable)
    ensures PoweredBy !in r && FixedHeaders().Keys <= r.Keys
  {
    (CopyAllowed(t, upstream) - {PoweredBy}) + FixedHeaders()
  }

  /** The header policy: the four fixed headers are set, `x-powered-by` is gone, the
      only header taken from upstream is the last allow-listed one, and every other
      header the response already had is kept as it was. */
  lemma PolicyHeaders(t: HeaderTable, upstream: seq<(string, string)>)
    ensures var r := Policy(t, upstream);
      && PoweredBy !in r
      && (forall k :: k in FixedHeaders() ==> k in r && r[k] == FixedHeaders()[k])
      && r.Keys == (t.Keys - {PoweredBy}) + FixedHeaders().Keys
                   + (if LastAllowed(upstream).Some? then {AllowMethods} else {})
      && (forall k :: k in t && k != PoweredBy && k != AllowMethods && k !in FixedHeaders() ==>
            r[k] == t[k])
      && match LastAllowed(upstream)
         case Some(j) => r[AllowMethods] == Header(upstream[j].0, upstream[j].1)
         case None => AllowMethods in t ==> r[AllowMethods] == t[AllowMethods]
  {
    PolicyKeys(t, upstream);
    PolicyKept(t, upstream);
    PolicyAllowMethods(t, upstream);
  }

  lemma PolicyKeys(t: HeaderTable, upstream: seq<(string, string)>)
    ensures Policy(t, upstream).Keys == (t.Keys - {PoweredBy}) + FixedHeaders().Keys
              + (if LastAllowed(upstream).Some? then {AllowMethods} else {})
  {
  }

  lemma PolicyKept(t: HeaderTable, upstream: seq<(string, string)>)
    ensures var r := Policy(t, upstream);
      && PoweredBy !in r
      && (forall k :: k in FixedHeaders() ==> k in r && r[k] == FixedHeaders()[k])
      && (forall k :: k in t && k != PoweredBy && k != AllowMethods && k !in FixedHeaders() ==>
            r[k] == t[k])
  {
  }

  lemma PolicyAllowMethods(t: HeaderTable, upstream: seq<(string, string)>)
    ensures var r := Policy(t, upstream);
      match LastAllowed(upstream)
      case Some(j) => r[AllowMethods] == Header(upstream[j].0, upstream[j].1)
      case None => AllowMethods in t ==> r[AllowMethods] == t[AllowMethods]
  {
    assert AllowMethods != PoweredBy && AllowMethods !in FixedHeaders();
  }

  /** The relayed request, or none when there is no `url` to send it to: `fetch` of
      `undefined` rejects. */
  function Forward(verb: string, url: Option<string>,
                   fetch: ProxyRequest -> Option<Upstream>): Option<Upstream>
  {
    if url.None? then None else fetch(ProxyRequest(verb, url.value))
  }

  /** The response object the handler writes to. */
  class ServerResponse {
    var statusCode: int
    var headers: HeaderTable
    var body: Option<string>

    /** A response not yet sent, with the headers earlier middleware already set. */
    constructor (initial: HeaderTable)
      ensures statusCode == 200 && headers == initial && body == None
    {
      statusCode := 200;
      headers := initial;
      body := None;
    }

    method SetHeader(name: string, value: string)
      modifies this
      ensures headers == SetEntry(old(headers), name, value)
      ensures statusCode == old(statusCode) && body == old(body)
    {
      headers := SetEntry(headers, name, value);
    }

    method RemoveHeader(name: string)
      modifies this
      ensures headers == old(headers) - {Lower(name)}
      ensures statusCode == old(statusCode) && body == old(body)
    {
      headers := headers - {Lower(name)};
    }

    method Status(code: int)
      modifies this
      ensures statusCode == code
      ensures headers == old(headers) && body == old(body)
    {
      statusCode := code;
    }

    method Send(text: string)
      modifies this
      ensures body == Some(text)
      ensures statusCode == old(statusCode) && headers == old(headers)
    {
      body := Some(text);
    }
  }

  /** The `forEach` over the upstream headers. */
  method CopyAllowedHeaders(res: ServerResponse, upstream: seq<(string, string)>)
    modifies res
    ensures res.headers == CopyAllowed(old(res.headers), upstream)
    ensures res.statusCode == old(res.statusCode) && res.body == old(res.body)
  {
    var i := 0;
    while i < |upstream|
      invariant 0 <= i <= |upstream|
      invariant res.headers == CopyAllowed(old(res.headers), upstream[..i])
      invariant res.statusCode == old(res.statusCode) && res.body == old(res.body)
    {
      var (key, value) := upstream[i];
      if IsAllowed(key) {
        res.SetHeader(key, value);
      }
      assert upstream[..i + 1][..i] == upstream[..i];
      i := i + 1;
    }
    assert upstream[..i] == upstream;
  }

  // The keys Node files the literal header names under.
  lemma LowerPoweredBy()
    ensures Lower("x-powered-by") == PoweredBy
  {
  }

  lemma LowerContentType()
    ensures Lower("Content-Type") == "content-type"
  {
  }

  lemma LowerAllowOrigin()
    ensures Lower("Access-Control-Allow-Origin") == "access-control-allow-origin"
  {
  }

  lemma LowerAllowHeaders()
    ensures Lower("Access-Control-Allow-Headers") == "access-control-allow-headers"
  {
  }

  lemma LowerCacheControl()
    ensures Lower("Cache-Control") == "cache-control"
  {
  }

  /** `removeHeader('x-powered-by')` and the four `setHeader` calls after the loop. */
  method SetFixedHeaders(res: ServerResponse)
    modifies res
    ensures res.headers == (old(res.headers) - {PoweredBy}) + FixedHeaders()
    ensures res.statusCode == old(res.statusCode) && res.body == old(res.body)
  {
    LowerPoweredBy();
    LowerContentType();
    LowerAllowOrigin();
    LowerAllowHeaders();
    LowerCacheControl();
    res.RemoveHeader("x-powered-by");
    res.SetHeader("Content-Type", "application/javascript");
    res.SetHeader("Access-Control-Allow-Origin", "*");
    res.SetHeader("Access-Control-Allow-Headers", "*");
    res.SetHeader("Cache-Control", "public, max-age=86400");
    FixedHeadersUnion(old(res.headers) - {PoweredBy});
  }

  /** Setting the four fixed headers one after the other is the union with the table. */
  lemma FixedHeadersUnion(m: HeaderTable)
    ensures m + FixedHeaders() ==
      m["content-type" := Header("Content-Type", "application/javascript")]
       ["access-control-allow-origin" := Header("Access-Control-Allow-Origin", "*")]
       ["access-control-allow-headers" := Header("Access-Control-Allow-Headers", "*")]
       ["cache-control" := Header("Cache-Control", "public, max-age=86400")]
  {
  }

  /** The handler: relay, then either the rewritten headers and the upstream text, or
      500 with a fixed message and the headers left as they were. */
  method HandleReverseProxy(res: ServerResponse, verb: string, url: Option<string>,
                            fetch: ProxyRequest -> Option<Upstream>)
    modifies res
    ensures url.None? ==>
      && res.statusCode == 500 && res.body == Some(FailureMessage)
      && res.headers == old(res.headers)
    ensures match Forward(verb, url, fetch)
      case None =>
        && res.statusCode == 500 && res.body == Some(FailureMessage)
        && res.headers == old(res.headers)
      case Some(upstream) =>
        && res.statusCode == old(res.statusCode) && res.body == Some(upstream.text)
        && res.headers == Policy(old(res.headers), upstream.headers)
  {
    var response := Forward(verb, url, fetch);
    match response
    case None =>
      res.Status(500);
      res.Send(FailureMessage);
    case Some(upstream) =>
      CopyAllowedHeaders(res, upstream.headers);
      SetFixedHeaders(res);
      res.Send(upstream.text);
  }
}
