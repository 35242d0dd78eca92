/** `GET /shopify/callback`: the return leg of the install handshake. The handler checks,
    in this order and stopping at the first failure, that the `state` query parameter is
    the `state` cookie, that `shop`, `hmac` and `code` are present, and that `hmac` is
    the digest of the rest of the query; only then does it exchange the code for an
    access token and, with that token, fetch the shop's record.

    The network is a parameter `fetch` from a request description to what its promise
    chain settles to, and the handler's result records, in order, every step it took
    that has an effect outside it: the digest it computed and the requests it sent. */
module Callback {
  import opened Prelude
  import opened Query
  import opened HmacCheck

  const StateMismatchMessage: string := "Request origin cannot be verified"
  const MissingParamsMessage: string := "Required parameters missing"
  const BadHmacMessage: string := "HMAC validation failed"
  const UnexpectedMessage: string := "Unexpected Error. See server logs for details."

  /** The JSON body of the token request. */
  datatype TokenPayload = TokenPayload(clientId: string, clientSecret: string, code: string)

  /** An outbound request as handed to `fetch`; a header value may be `undefined`. */
  datatype Request = Request(verb: string, url: string,
                             headers: seq<(string, Option<string>)>,
                             payload: Option<TokenPayload>)

  /** How a `fetch(...).then(r => r.json())` chain settles: with the parsed body (and,
      for the token reply, its `access_token` field), or rejected with an error whose
      `statusCode` may be undefined. */
  datatype Reply =
    | Parsed(json: string, accessToken: Option<string>)
    | Failed(statusCode: Option<int>)

  /** The status written with `res.status(...)`, undefined when an error carried none. */
  datatype Response = Response(status: Option<int>, body: string)

  datatype Effect = ComputeHmac(message: string) | Fetch(request: Request)

  datatype Handled = Handled(response: Response, effects: seq<Effect>)

  /** The gate's verdict; `Exchange` carries the shop and the first request to send. */
  datatype Decision =
    | Forbidden
    | MissingParams
    | BadHmac
    | Exchange(shop: string, tokenRequest: Request)

  /** `url` is an address under the admin path of the shop's own host. */
  predicate ShopAdminUrl(url: string, shop: string)
  {
    var root := "https://" + shop + "/admin/";
    |root| <= |url| && url[..|root|] == root
  }

  /** The code-for-token exchange: the one request that carries the client secret, in a
      JSON body POSTed to the shop's admin host, along with the client id and the code. */
  function TokenRequest(shop: string, cfg: Config, code: string): (r: Request)
    ensures r.verb == "POST" && ShopAdminUrl(r.url, shop)
    ensures r.url == "https://" + shop + "/admin/oauth/access_token"
    ensures r.payload == Some(TokenPayload(cfg.apiKey, cfg.apiSecret, code))
  {
    var url := "https://" + shop + "/admin/oauth/access_token";
    assert url == ("https://" + shop + "/admin/") + "oauth/access_token";
    Request("POST", url, [("Content-Type", Some("application/json"))],
            Some(TokenPayload(cfg.apiKey, cfg.apiSecret, code)))
  }

  /** The shop record: a GET from the same shop's admin host with no body, whose only
      credential is the access token from the exchange. */
  function ShopRequest(shop: string, accessToken: Option<string>): (r: Request)
    ensures r.verb == "GET" && ShopAdminUrl(r.url, shop)
    ensures r.url == "https://" + shop + "/admin/api/2020-01/shop.json"
    ensures r.payload == None && r.headers == [("X-Shopify-Access-Token", accessToken)]
  {
    var url := "https://" + shop + "/admin/api/2020-01/shop.json";
    assert url == ("https://" + shop + "/admin/") + "api/2020-01/shop.json";
    Request("GET", url, [("X-Shopify-Access-Token", accessToken)], None)
  }

  predicate HasRequiredParams(q: seq<Param>)
  {
    Truthy(Get(q, "shop")) && Truthy(Get(q, "hmac")) && Truthy(Get(q, "code"))
  }

  /** The request comes from the browser that started the install (strict equality of
      two possibly undefined values) and was signed by the platform with the secret. */
  predicate Authentic(q: seq<Param>, cookieState: Option<string>, cfg: Config,
                      hmacHex: (string, string) -> HexDigest, escape: string -> string)
  {
    && Get(q, "state") == cookieState
    && HasRequiredParams(q)
    && Get(q, "hmac").value == hmacHex(cfg.apiSecret, Message(q, escape))
  }

  /** The checks of the handler, in the handler's order. */
  function Decide(q: seq<Param>, cookieState: Option<string>, cfg: Config,
                  hmacHex: (string, string) -> HexDigest, escape: string -> string): (d: Decision)
    ensures d == Forbidden <==> Get(q, "state") != cookieState
    ensures d == MissingParams <==> Get(q, "state") == cookieState && !HasRequiredParams(q)
    ensures d == BadHmac <==>
      && Get(q, "state") == cookieState && HasRequiredParams(q)
      && Get(q, "hmac").value != hmacHex(cfg.apiSecret, Message(q, escape))
    ensures d.Exchange? <==> Authentic(q, cookieState, cfg, hmacHex, escape)
    ensures d.Exchange? ==>
      && d.shop == Get(q, "shop").value
      && d.tokenRequest == TokenRequest(d.shop, cfg, Get(q, "code").value)
  {
    if Get(q, "state") != cookieState then Forbidden
    else
      var shop, hmac, code := Get(q, "shop"), Get(q, "hmac"), Get(q, "code");
      if !(Truthy(shop) && Truthy(hmac) && Truthy(code)) then MissingParams
      else if !Verify(q, hmac.value, cfg.apiSecret, hmacHex, escape) then BadHmac
      else Exchange(shop.value, TokenRequest(shop.value, cfg, code.value))
  }

  /** The promise chain after the gate: the token request, then, only once its reply
      is parsed, the shop request carrying the token from it. The response is decided by
      the last request sent: its rejection gives the error's status and a fixed message,
      and only a parsed shop record gives 200. */
  function ExchangeCode(shop: string, tokenRequest: Request, fetch: Request -> Reply): (h: Handled)
    ensures 1 <= |h.effects| <= 2 && h.effects[0] == Fetch(tokenRequest)
    ensures forall e :: e in h.effects ==> e.Fetch?
    ensures |h.effects| == 2 <==> fetch(tokenRequest).Parsed?
    ensures |h.effects| == 2 ==>
      h.effects[1] == Fetch(ShopRequest(shop, fetch(tokenRequest).accessToken))
    ensures match fetch(h.effects[|h.effects| - 1].request)
      case Failed(statusCode) => h.response == Response(statusCode, UnexpectedMessage)
      case Parsed(json, _) => |h.effects| == 2 && h.response == Response(Some(200), json)
  {
    match fetch(tokenRequest)
    case Failed(statusCode) => Handled(Response(statusCode, UnexpectedMessage), [Fetch(tokenRequest)])
    case Parsed(_, accessToken) =>
      var shopRequest := ShopRequest(shop, accessToken);
      var sent := [Fetch(tokenRequest), Fetch(shopRequest)];
      match fetch(shopRequest)
      case Failed(statusCode) => Handled(Response(statusCode, UnexpectedMessage), sent)
      case Parsed(json, _) => Handled(Response(Some(200), json), sent)
  }

  /** The whole handler: the gate, then the two requests, the second built from the
      first's reply, and the response that ends the request. Nothing is sent before the
      digest has been compared, and nothing at all when the gate refuses. */
  function HandleCallback(q: seq<Param>, cookieState: Option<string>, cfg: Config,
                          hmacHex: (string, string) -> HexDigest, escape: string -> string,
                          fetch: Request -> Reply): (h: Handled)
    ensures Get(q, "state") != cookieState ==>
      h == Handled(Response(Some(403), StateMismatchMessage), [])
    ensures Get(q, "state") == cookieState && !HasRequiredParams(q) ==>
      h == Handled(Response(Some(400), MissingParamsMessage), [])
    ensures Get(q, "state") == cookieState && HasRequiredParams(q)
            && !Authentic(q, cookieState, cfg, hmacHex, escape) ==>
      h == Handled(Response(Some(400), BadHmacMessage), [ComputeHmac(Message(q, escape))])
    ensures Authentic(q, cookieState, cfg, hmacHex, escape) ==>
      var shop := Get(q, "shop").value;
      var rest := ExchangeCode(shop, TokenRequest(shop, cfg, Get(q, "code").value), fetch);
      && h.effects == [ComputeHmac(Message(q, escape))] + rest.effects
      && h.response == rest.response
  {
    match Decide(q, cookieState, cfg, hmacHex, escape)
    case Forbidden => Handled(Response(Some(403), StateMismatchMessage), [])
    case MissingParams => Handled(Response(Some(400), MissingParamsMessage), [])
    case BadHmac => Handled(Response(Some(400), BadHmacMessage), [ComputeHmac(Message(q, escape))])
    case Exchange(shop, tokenRequest) =>
      var rest := ExchangeCode(shop, tokenRequest, fetch);
      Handled(rest.response, [ComputeHmac(Message(q, escape))] + rest.effects)
  }

  /** A redirect the platform signed with the shared secret, returning the state the
      browser holds in its cookie and naming a shop and a code, is authentic, so
      `Decide` lets it through to the token exchange for that shop and code. */
  lemma SignedCallbackAuthentic(before: seq<Param>, after: seq<Param>, cfg: Config,
                                hmacHex: (string, string) -> HexDigest, escape: string -> string)
    requires Unsigned(before) && Unsigned(after)
    requires Truthy(Get(before + after, "shop")) && Truthy(Get(before + after, "code"))
    ensures var q := Sign(before, after, cfg.apiSecret, hmacHex, escape);
      && Authentic(q, Get(before + after, "state"), cfg, hmacHex, escape)
      && Get(q, "shop") == Get(before + after, "shop")
      && Get(q, "code") == Get(before + after, "code")
  {
    var message := Stringify(before + after, escape);
    var digest := hmacHex(cfg.apiSecret, message);
    assert digest != "" by {
      assert |digest| == 64;
    }
    var q := Sign(before, after, cfg.apiSecret, hmacHex, escape);
    assert Message(q, escape) == message by {
      SignedParamsOfSign(before, after, cfg.apiSecret, hmacHex, escape);
    }
    SignedQueryReads(before, after, digest, "hmac");
    SignedQueryReads(before, after, digest, "state");
    SignedQueryReads(before, after, digest, "shop");
    SignedQueryReads(before, after, digest, "code");
    AuthenticWhen(q, Get(before + after, "state"), cfg, hmacHex, escape, message);
  }

  lemma AuthenticWhen(q: seq<Param>, cookieState: Option<string>, cfg: Config,
                      hmacHex: (string, string) -> HexDigest, escape: string -> string,
                      message: string)
    requires Get(q, "state") == cookieState && HasRequiredParams(q)
    requires Message(q, escape) == message
    requires Get(q, "hmac") == Some(hmacHex(cfg.apiSecret, message))
    ensures Authentic(q, cookieState, cfg, hmacHex, escape)
  {
  }

  /** The handler sends a request to the shop exactly when the callback is authentic,
      and then the digest comparison comes first and the code exchange second. */
  lemma FetchOnlyWhenAuthentic(q: seq<Param>, cookieState: Option<string>, cfg: Config,
                               hmacHex: (string, string) -> HexDigest, escape: string -> string,
                               fetch: Request -> Reply)
    ensures var h := HandleCallback(q, cookieState, cfg, hmacHex, escape, fetch);
      && ((exists i :: 0 <= i < |h.effects| && h.effects[i].Fetch?)
            <==> Authentic(q, cookieState, cfg, hmacHex, escape))
      && (Authentic(q, cookieState, cfg, hmacHex, escape) ==>
            && |h.effects| >= 2
            && h.effects[0] == ComputeHmac(Message(q, escape))
            && h.effects[1] == Fetch(TokenRequest(Get(q, "shop").value, cfg, Get(q, "code").value)))
  {
    if Authentic(q, cookieState, cfg, hmacHex, escape) {
      ExchangeAfterCheck(q, cookieState, cfg, hmacHex, escape, fetch);
    } else {
      NothingSentUnlessAuthentic(q, cookieState, cfg, hmacHex, escape, fetch);
    }
  }

  lemma ExchangeAfterCheck(q: seq<Param>, cookieState: Option<string>, cfg: Config,
                           hmacHex: (string, string) -> HexDigest, escape: string -> string,
                           fetch: Request -> Reply)
    requires Authentic(q, cookieState, cfg, hmacHex, escape)
    ensures var h := HandleCallback(q, cookieState, cfg, hmacHex, escape, fetch);
      && |h.effects| >= 2
      && h.effects[0] == ComputeHmac(Message(q, escape))
      && h.effects[1] == Fetch(TokenRequest(Get(q, "shop").value, cfg, Get(q, "code").value))
  {
    var h := HandleCallback(q, cookieState, cfg, hmacHex, escape, fetch);
    var shop := Get(q, "shop").value;
    var rest := ExchangeCode(shop, TokenRequest(shop, cfg, Get(q, "code").value), fetch);
    assert h.effects == [ComputeHmac(Message(q, escape))] + rest.effects;
    assert h.effects[1] == rest.effects[0];
  }

  lemma NothingSentUnlessAuthentic(q: seq<Param>, cookieState: Option<string>, cfg: Config,
                                   hmacHex: (string, string) -> HexDigest,
                                   escape: string -> string, fetch: Request -> Reply)
    requires !Authentic(q, cookieState, cfg, hmacHex, escape)
    ensures var h := HandleCallback(q, cookieState, cfg, hmacHex, escape, fetch);
      forall i :: 0 <= i < |h.effects| ==> h.effects[i].ComputeHmac?
  {
    var h := HandleCallback(q, cookieState, cfg, hmacHex, escape, fetch);
    assert h.effects == [] || h.effects == [ComputeHmac(Message(q, escape))];
  }

  /** End to end: a browser returning from the install with its `state` cookie and a
      redirect the platform signed gets its code exchanged for the named shop. */
  lemma {:induction false} SignedCallbackExchanges(before: seq<Param>, after: seq<Param>,
                                cfg: Config, hmacHex: (string, string) -> HexDigest,
                                escape: string -> string, fetch: Request -> Reply)
    requires Unsigned(before) && Unsigned(after)
    requires Truthy(Get(before + after, "shop")) && Truthy(Get(before + after, "code"))
    ensures var q := Sign(before, after, cfg.apiSecret, hmacHex, escape);
      var h := HandleCallback(q, Get(before + after, "state"), cfg, hmacHex, escape, fetch);
      && |h.effects| >= 2
      && h.effects[0] == ComputeHmac(Stringify(before + after, escape))
      && h.effects[1] == Fetch(TokenRequest(Get(before + after, "shop").value, cfg,
                                            Get(before + after, "code").value))
  {
    var q := Sign(before, after, cfg.apiSecret, hmacHex, escape);
    SignedCallbackAuthentic(before, after, cfg, hmacHex, escape);
    SignedParamsOfSign(before, after, cfg.apiSecret, hmacHex, escape);
    FetchOnlyWhenAuthentic(q, Get(before + after, "state"), cfg, hmacHex, escape, fetch);
  }
}
