# Shopify app server: install handshake, callback gate and reverse-proxy header policy

This project models the decision logic of `index.js`, the Express server of a Shopify app.
It covers three routes:

- `GET /shopify` starts the OAuth install. With a `shop` it redirects the browser to the
  shop's authorize page. The redirect carries a fresh nonce as `state`, and the handler
  stores the same nonce in a `state` cookie. Without a `shop` it answers 400.
- `GET /shopify/callback` is the return leg. It checks three things, in order, and stops
  at the first failure:
  - the query's `state` is strictly equal to the cookie's `state` (403 otherwise);
  - `shop`, `hmac` and `code` are all present (400 otherwise);
  - `hmac` is the HMAC-SHA256 hex digest, under the app secret, of the query without
    `signature` and `hmac`, encoded by `querystring.stringify`; the comparison is
    `crypto.timingSafeEqual` inside a `try` (400 otherwise).
  Only after all three checks pass does it send two requests: it POSTs the code to the
  shop for an access token, and then it GETs the shop record with that token.
- `/reverse-proxy?url=…` relays the request to `url`. It then rewrites the response's
  header table in place:
  - of the upstream headers, it keeps only `access-control-allow-methods`;
  - it removes `x-powered-by`;
  - it sets `Content-Type`, `Access-Control-Allow-Origin`, `Access-Control-Allow-Headers`
    and `Cache-Control`.
  It sends the upstream text unchanged, and any failure gives 500.

Modules, one file each:

- `Prelude` (`prelude.dfy`): optional values, results, bytes, JavaScript truthiness of a
  query value, and ASCII lower-casing.
- `Query` (`query.dfy`): the parsed query as an ordered list of key/value pairs. It has
  reading a key, `delete` on a copy, and `querystring.stringify` with its encoder as a
  parameter, plus a reader that inverts it.
- `HmacCheck` (`hmac.dfy`):
  - the signed message;
  - `Buffer.from(…, 'utf-8')`;
  - `timingSafeEqual`, including its length error;
  - the `hashEquals` wrapper;
  - how the platform signs a redirect.
- `Install` (`install.dfy`): the install route.
- `Callback` (`callback.dfy`):
  - the gate, `Decide`;
  - the promise chain after it, `ExchangeCode`;
  - the whole handler, `HandleCallback`. It returns the response and an ordered trace of
    the steps that act outside the handler: the digest computed and each request sent.
- `ReverseProxy` (`proxy.dfy`):
  - the response object, as a class whose header table its methods update in place;
  - the `forEach` loop, as a method with a loop invariant;
  - the handler, proved against the function `Policy`, which states the final table.

Environment values and foreign calls become parameters:

- `SHOPIFY_API_KEY`, `SHOPIFY_API_SECRET` and `HOST` are a `Config` value.
- `nonce()` is a `state` argument.
- The parsed `state` cookie is an `Option<string>`.
- HMAC-SHA256 with hex output is a function `hmacHex` returning 64 lower-case hex digits.
- The percent-encoder of `querystring` is a function `escape`.
- `fetch` with its promise chain is a function from a request description to how the chain
  settles.

A failed token or shop request answers `res.status(error.statusCode)`. The model carries
that status as an `Option<int>` taken from the rejection, possibly undefined.

## Model

| member | source | states |
|---|---|---|
| Prelude.LowerChar | index.js:40 | ASCII upper-case letters move up by 32 code points to their lower-case forms; every other character is unchanged; the result is never upper-case |
| Query.Get | index.js:81 | reading a query key gives undefined exactly when no parameter has that key, and otherwise a value some parameter holds under that key |
| Query.GetAppend | index.js:81 | reading a key of two concatenated parameter lists finds it in the first list when it is there, and otherwise in the second |
| Query.Delete | index.js:90-92 | `delete` on the copy keeps exactly the parameters with other keys and never grows the list |
| Query.GetAfterDelete | index.js:90-92 | after `delete map[k]`, `k` reads undefined and every other key reads as it did before |
| Query.DeleteAbsent | index.js:90-92 | deleting a key the query does not hold changes nothing |
| Query.DeleteAppend | index.js:90-92 | deleting from a concatenation deletes from each part |
| Query.Stringify | index.js:93 | `querystring.stringify` gives the empty string exactly for an empty query, and otherwise a string holding `=`; `ParseStringify` and `StringifyInjective` give its meaning |
| Query.ParseStringify | index.js:93 | round trip: if the encoder never emits `&` or `=`, reading back the stringified query gives the encoded parameters in order, none added or lost |
| Query.StringifyInjective | index.js:93 | with an injective encoder that never emits `&` or `=`, two parameter lists that stringify to the same message are equal |
| HmacCheck.EncodeChar | index.js:94-101 | UTF-8 of one character is 1 to 4 bytes; ASCII is the one byte of its code; any other character starts with a lead byte of at least 0xC0 |
| HmacCheck.Utf8 | index.js:94-101 | the UTF-8 encoding is at least as long as the string |
| HmacCheck.Utf8MatchesAscii | index.js:94-101 | a string whose UTF-8 bytes equal those of an ASCII string is that string |
| HmacCheck.MismatchesZero | index.js:105 | two equal-length buffers have no differing positions exactly when they are equal |
| HmacCheck.TimingSafeEqual | index.js:105 | `timingSafeEqual` throws exactly when the lengths differ; otherwise it returns true exactly when the buffers are equal |
| HmacCheck.HashEquals | index.js:102-109 | the try/catch gives false, never an error, on a length mismatch; overall it is true exactly when the two buffers are equal |
| HmacCheck.SignedParams | index.js:90-92 | the signed copy holds exactly the query's parameters other than `signature` and `hmac` |
| HmacCheck.SignedParamsGet | index.js:90-92 | in the signed copy, `signature` and `hmac` are undefined and every other key reads as in the query |
| HmacCheck.Message | index.js:90-93 | the signed message is empty exactly when the query holds nothing but `signature` and `hmac` |
| HmacCheck.Verify | index.js:93-109 | the comparison passes exactly when the provided `hmac` is, character for character, the hex digest under the secret of the stringified query without `signature` and `hmac` |
| HmacCheck.SignedParamsOfSign | index.js:90-93 | wherever the platform put `hmac`, deleting the signature fields from the signed query gives back the signed parameters in their order |
| HmacCheck.SignedQueryReads | index.js:81 | a signed query reads `hmac` as the digest and every other key as the signed parameters do |
| HmacCheck.VerifySigned | index.js:90-109 | completeness: a query signed with the shared secret, with `hmac` at any position, carries its digest as `hmac` and passes the comparison |
| Install.InstallUrl | index.js:65-70 | the redirect points at `https://` plus the shop named in the query, and ends with the callback address |
| Install.HandleInstall | index.js:61-77 | the route rejects with 400 and the fixed message, with no cookie and no redirect, exactly when `shop` is falsy; a redirect always sets the `state` cookie to this request's nonce |
| Install.StateBinding | index.js:64-73 | the redirect is the shop's authorize address with the client id and `read_products`, then exactly the cookie's nonce, then `&redirect_uri=` and the callback address |
| Callback.TokenRequest | index.js:116-130 | the code exchange is a POST to exactly `https://<shop>/admin/oauth/access_token`, under the shop's own admin host, with the client id, the client secret and the code in its body |
| Callback.ShopRequest | index.js:134-140 | the shop request is a GET to exactly `https://<shop>/admin/api/2020-01/shop.json`, under the same shop's admin host, with no body, and its only header is the access token |
| Callback.Decide | index.js:84-113 | the checks run in order: 403 exactly when the states differ under `!==` (two undefined values pass); then 400 missing parameters exactly when `shop`, `hmac` or `code` is falsy; then 400 bad HMAC exactly when the digest differs; otherwise an exchange for the query's shop with a POST of the client id, secret and code |
| Callback.ExchangeCode | index.js:115-153 | the trace holds only requests, and the token request comes first. A second request is sent exactly when the token reply is parsed; it is the shop request carrying that reply's token. The last request sent decides the response: its rejection gives the error's status and the fixed message, and only a parsed shop record gives 200 with its JSON |
| Callback.HandleCallback | index.js:80-157 | a state mismatch or missing parameters answer 403/400 with no digest computed and nothing sent; a bad HMAC answers 400 after only the digest; an authentic callback computes the digest and then runs the exchange chain |
| Callback.SignedCallbackAuthentic | index.js:84-113 | a redirect the platform signed, with `hmac` at any position, carrying the cookie's state and naming a shop and a code, passes every check of the gate |
| Callback.FetchOnlyWhenAuthentic | index.js:84-140 | the handler sends any request exactly when the callback is authentic; it then compares the digest first and sends the code exchange second |
| Callback.ExchangeAfterCheck | index.js:111-130 | for an authentic callback, the digest is computed first and the token request is the next step |
| Callback.NothingSentUnlessAuthentic | index.js:84-113 | when the callback is not authentic, the handler sends no request at all |
| Callback.SignedCallbackExchanges | index.js:80-130 | end to end, a genuine callback leads to the digest check of the signed message and then the token request for its shop and code |
| ReverseProxy.AllowedIgnoringCase | index.js:40 | the loop's test accepts exactly the spellings of `access-control-allow-methods` that differ from it only in the case of ASCII letters |
| ReverseProxy.LastAllowed | index.js:39-43 | finds the last upstream header whose lower-cased name is `access-control-allow-methods`, or none exactly when no header is allow-listed |
| ReverseProxy.CopyAllowed | index.js:39-43 | copying the allow-listed headers one by one leaves only the last one, under `access-control-allow-methods`; with none, the table is unchanged |
| ReverseProxy.Policy | index.js:39-52 | the final table never holds `x-powered-by` and always holds the four fixed headers; `PolicyHeaders` states the rest |
| ReverseProxy.PolicyHeaders | index.js:39-52 | after the handler, `x-powered-by` is gone, the four fixed headers hold their values, and the only upstream header is the last allow-listed one. Every other existing header is kept as it was, and there are no other keys |
| ReverseProxy.PolicyKeys | index.js:39-52 | the final header names are the old ones without `x-powered-by`, plus the four fixed ones, plus `access-control-allow-methods` when upstream sent it |
| ReverseProxy.PolicyKept | index.js:44-52 | `x-powered-by` is absent, the fixed headers hold their values, and every unrelated existing header is untouched |
| ReverseProxy.PolicyAllowMethods | index.js:39-43 | `access-control-allow-methods` holds the last allow-listed upstream header, or its old value when upstream sent none |
| ReverseProxy.FixedHeadersUnion | index.js:47-52 | the four `setHeader` calls in a row add exactly the fixed-header table |
| ReverseProxy.ServerResponse.constructor | index.js:29 | a fresh response has status 200, the headers earlier middleware set, and no body |
| ReverseProxy.ServerResponse.SetHeader | index.js:41 | `setHeader` replaces the entry under the lower-cased name, keeping the name as written; it changes nothing else |
| ReverseProxy.ServerResponse.RemoveHeader | index.js:45 | `removeHeader` drops the entry under the lower-cased name and changes nothing else |
| ReverseProxy.ServerResponse.Status | index.js:56 | `status` sets the code and changes nothing else |
| ReverseProxy.ServerResponse.Send | index.js:54 | `send` sets the body and changes nothing else |
| ReverseProxy.CopyAllowedHeaders | index.js:39-43 | the `forEach` loop leaves the table that `CopyAllowed` describes and leaves status and body alone |
| ReverseProxy.SetFixedHeaders | index.js:44-52 | `removeHeader('x-powered-by')` and the four `setHeader` calls leave the table without `x-powered-by` and with the fixed headers |
| ReverseProxy.HandleReverseProxy | index.js:29-58 | with no `url` (`fetch` of `undefined` rejects) or a failed relay: 500, "Could not get resource", headers untouched. Otherwise: headers as `Policy` states, body the upstream text, status unchanged |

## Left out

- Express set-up, compression, the path-logging middleware, static serving under
  `/proxy`, the `/` route and `app.listen` (index.js:1-27, 161-163): these are framework
  plumbing with no decision logic.
- `console.log` calls (index.js:123, 139, 146, 151): logging only.
- HMAC-SHA256 and its hex output (index.js:95-101): a foreign cryptographic call. It is the
  parameter `hmacHex`, constrained only to return 64 lower-case hex digits.
- The constant time of `timingSafeEqual`: a timing property. The model states only the
  result. `Mismatches` reads every position, but the model says nothing about time.
- `nonce()` (index.js:8, 64): a random generator. The nonce is the `state` argument.
- `cookie.parse` (index.js:82): a library call. The parsed `state` cookie is an
  `Option<string>` argument. When the request has no Cookie header, the call throws. The
  async handler's promise then rejects with nobody to handle it, and the outcome depends
  on the runtime: the request gets no answer, and Node 15 or later with default settings
  ends the whole process. The model does not capture this.
- `res.redirect` (index.js:73) passes the URL through Express's `encodeurl` before it
  sets `Location`: the model's `location` is the plain concatenation, so for a `shop` or
  a host with spaces or non-ASCII characters it is not the header byte for byte.
- The percent-encoding of `querystring.stringify` (index.js:93): a library encoder. It is
  the parameter `escape`. The round-trip and injectivity lemmas assume it never emits `&`
  or `=` and is injective; percent-encoding has both properties.
- Query values that are arrays or nested objects, and repeated keys: Express would parse
  these into arrays. The model's query has one string per key, and `Get` reads the first.
- JavaScript's own-key order, which puts integer-like keys first: the model keeps the order
  in which the query lists its parameters.
- Lone surrogates in UTF-8 encoding: Dafny's `char` is a Unicode scalar value, so none
  can occur.
- `fetch`, JSON parsing and serialising, and the promise chains (index.js:32-37,
  124-153): network I/O and async sequencing. Each request is a description handed to a
  `fetch` parameter, and the parameter returns how the chain settles. A token reply that
  is not an object is not modelled: its `access_token` is carried as an optional string.
- The status in the callback's `catch` branches is `error.statusCode` (index.js:147, 152).
  It is carried as an `Option<int>` taken from the rejection, not fixed at 500. The model
  does not follow what Express does with an undefined status.
- `req.body` forwarding in the proxy (index.js:35): no body parser is configured, so its
  value is set by the framework. The relayed request carries only the method and URL.
- Exceptions thrown by `setHeader` on an invalid header value, which the proxy's `catch`
  would also turn into 500: header validity is Node's, so every upstream value is taken
  as valid.
- The headers `res.send` adds on its own (`Content-Length`, `ETag`, a `charset` on the
  content type): framework behaviour after the policy.
- `toLowerCase` beyond ASCII: header names are ASCII tokens, so only ASCII letters are
  lower-cased.
