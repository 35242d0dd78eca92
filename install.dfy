/** `GET /shopify`: the start of the install handshake. With a shop it answers with a
    redirect to the shop's authorization page and a `state` cookie holding the nonce
    that the redirect also carries; without one it answers 400. */
module Install {
  import opened Prelude

  const Scopes: string := "read_products"
  const MissingShopMessage: string :=
    "Missing shop parameter. Please add ?shop=your-development-shop.myshopify.com to your request"

  datatype Cookie = Cookie(name: string, value: string)

  /** What the install route answers: `res.cookie` + `res.redirect` (status 302),
      or `res.status(status).send(message)`. */
  datatype InstallReply =
    | Redirect(location: string, cookie: Cookie)
    | Rejected(status: nat, message: string)

  /** The callback address the platform is told to return to. */
  function RedirectUri(cfg: Config): string
  {
    cfg.host + "/shopify/callback"
  }

  /** The authorization URL, built by plain concatenation: nothing is escaped. It points
      at the shop's own host and ends with the address the platform is to return to. */
  function InstallUrl(shop: string, cfg: Config, state: string): (url: string)
    ensures |"https://" + shop| + |RedirectUri(cfg)| <= |url|
    ensures url[..|"https://" + shop|] == "https://" + shop
    ensures url[|url| - |RedirectUri(cfg)|..] == RedirectUri(cfg)
  {
    var host := "https://" + shop;
    var middle := "/admin/oauth/authorize?client_id=" + cfg.apiKey
                  + "&scope=" + Scopes + "&state=" + state + "&redirect_uri=";
    var url := "https://" + shop + "/admin/oauth/authorize?client_id=" + cfg.apiKey
               + "&scope=" + Scopes + "&state=" + state + "&redirect_uri=" + RedirectUri(cfg);
    assert url == host + middle + RedirectUri(cfg);
    assert (host + middle + RedirectUri(cfg))[..|host|] == host;
    url
  }

  /** The install handler; `state` is the value `nonce()` produced for this request. */
  function HandleInstall(shop: Option<string>, cfg: Config, state: string): (r: InstallReply)
    ensures !Truthy(shop) <==> r == Rejected(400, MissingShopMessage)
    ensures r.Redirect? ==> r.cookie == Cookie("state", state)
  {
    if Truthy(shop) then
      Redirect(InstallUrl(shop.value, cfg, state), Cookie("state", state))
    else
      Rejected(400, MissingShopMessage)
  }

  /** The redirect and the cookie carry the same nonce: the location is the authorize
      address of the shop with the client id and the scope, then the cookie's value, then
      the callback address, with nothing else in between. */
  lemma {:induction false} StateBinding(shop: Option<string>, cfg: Config, state: string)
    requires Truthy(shop)
    ensures var r := HandleInstall(shop, cfg, state);
      var start := |"https://" + shop.value + "/admin/oauth/authorize?client_id="
                    + cfg.apiKey + "&scope=" + Scopes + "&state="|;
      r.Redirect?
      && start + |state| <= |r.location|
      && r.location[..start] == "https://" + shop.value + "/admin/oauth/authorize?client_id="
                                + cfg.apiKey + "&scope=" + Scopes + "&state="
      && r.location[start..start + |state|] == r.cookie.value
      && r.location[start + |state|..] == "&redirect_uri=" + cfg.host + "/shopify/callback"
  {
    var r := HandleInstall(shop, cfg, state);
    var prefix := "https://" + shop.value + "/admin/oauth/authorize?client_id="
                  + cfg.apiKey + "&scope=" + Scopes + "&state=";
    var suffix := "&redirect_uri=" + cfg.host + "/shopify/callback";
    assert r.location == prefix + state + suffix;
    assert (prefix + state + suffix)[..|prefix|] == prefix;
    assert (prefix + state + suffix)[|prefix|..|prefix| + |state|] == state;
    assert (prefix + state + suffix)[|prefix| + |state|..] == suffix;
  }
}
