/** Verification of the callback's signature: the message signed is the query without
    its `signature` and `hmac` parameters, encoded by `querystring.stringify`; the
    generated hex digest and the provided `hmac` are turned into UTF-8 buffers and
    compared with `crypto.timingSafeEqual`, whose length error is caught as "not equal".
    HMAC-SHA256 itself is a parameter `hmacHex(secret, message)` producing a digest. */
module HmacCheck {
  import opened Prelude
  import opened Query

  predicate IsHexDigit(c: char)
  {
    '0' <= c <= '9' || 'a' <= c <= 'f'
  }

  /** What `createHmac('sha256', secret).update(message).digest('hex')` returns. */
  type HexDigest = s: string | |s| == 64 && forall i | 0 <= i < |s| :: IsHexDigit(s[i])
    witness seq(64, _ => '0')

  /** The UTF-8 encoding of one Unicode scalar value. */
  function EncodeChar(c: char): (r: seq<byte>)
    ensures 1 <= |r| <= 4
    ensures c as int < 0x80 ==> r == [c as int]
    ensures c as int >= 0x80 ==> r[0] >= 0xC0
  {
    var cp := c as int;
    if cp < 0x80 then [cp]
    else if cp < 0x800 then [0xC0 + cp / 0x40, 0x80 + cp % 0x40]
    else if cp < 0x10000 then [0xE0 + cp / 0x1000, 0x80 + cp / 0x40 % 0x40, 0x80 + cp % 0x40]
    else [0xF0 + cp / 0x40000, 0x80 + cp / 0x1000 % 0x40, 0x80 + cp / 0x40 % 0x40, 0x80 + cp % 0x40]
  }

  /** `Buffer.from(s, 'utf-8')`. */
  function Utf8(s: string): (r: seq<byte>)
    ensures |r| >= |s|
  {
    if s == [] then [] else EncodeChar(s[0]) + Utf8(s[1..])
  }

  /** A string encoded as UTF-8 gives the same bytes as an ASCII string only when it
      is that string: the lead byte of every multi-byte character is at least 0xC0. */
  lemma {:induction false} Utf8MatchesAscii(p: string, d: string)
    requires forall i :: 0 <= i < |d| ==> d[i] as int < 0x80
    requires Utf8(p) == Utf8(d)
    ensures p == d
  {
    if p == [] {
      assert d == [];
    } else {
      assert d != [];
      var ep, ed := EncodeChar(p[0]), EncodeChar(d[0]);
      assert Utf8(p) == ep + Utf8(p[1..]);
      assert Utf8(d) == ed + Utf8(d[1..]);
      assert ed == [d[0] as int];
      assert ep[0] == Utf8(p)[0] == ed[0];
      assert p[0] as int < 0x80;
      assert p[0] == d[0];
      assert Utf8(p[1..]) == Utf8(p)[1..] == Utf8(d)[1..] == Utf8(d[1..]);
      Utf8MatchesAscii(p[1..], d[1..]);
    }
  }

  /** The error `timingSafeEqual` throws for buffers of different lengths. */
  datatype TimingSafeEqualError = InputLengthMismatch

  /** The number of positions at which two buffers of one length differ, counted
      over every position: the comparison reads to the end instead of stopping at the
      first difference. */
  function Mismatches(a: seq<byte>, b: seq<byte>): nat
    requires |a| == |b|
  {
    if a == [] then 0 else (if a[0] != b[0] then 1 else 0) + Mismatches(a[1..], b[1..])
  }

  lemma {:induction false} MismatchesZero(a: seq<byte>, b: seq<byte>)
    requires |a| == |b|
    ensures Mismatches(a, b) == 0 <==> a == b
  {
    if a != [] {
      MismatchesZero(a[1..], b[1..]);
      assert a == [a[0]] + a[1..] && b == [b[0]] + b[1..];
    }
  }

  /** `crypto.timingSafeEqual(a, b)`: throws when the lengths differ, otherwise tells
      whether the two buffers hold the same bytes. */
  function TimingSafeEqual(a: seq<byte>, b: seq<byte>): (r: Result<bool, TimingSafeEqualError>)
    ensures r.Err? <==> |a| != |b|
    ensures r.Ok? ==> (r.value <==> a == b)
  {
    if |a| != |b| then Err(InputLengthMismatch)
    else
      MismatchesZero(a, b);
      Ok(Mismatches(a, b) == 0)
  }

  /** `hashEquals`: false before the call, the call's value when it returns, false again
      when it throws. A length mismatch is a failed comparison, never an error. */
  function HashEquals(generated: seq<byte>, provided: seq<byte>): (equal: bool)
    ensures |generated| != |provided| ==> !equal
    ensures equal <==> generated == provided
  {
    match TimingSafeEqual(generated, provided)
    case Ok(same) => same
    case Err(_) => false
  }

  /** The copy of the query with `signature` and `hmac` deleted. */
  function SignedParams(q: seq<Param>): (r: seq<Param>)
    ensures forall p :: p in r <==> p in q && p.0 != "signature" && p.0 != "hmac"
  {
    Delete(Delete(q, "signature"), "hmac")
  }

  /** The signed parameters read exactly as the query does, except that `signature`
      and `hmac` are undefined. */
  lemma SignedParamsGet(q: seq<Param>, k: string)
    ensures Get(SignedParams(q), k) == if k == "signature" || k == "hmac" then None else Get(q, k)
  {
    GetAfterDelete(q, "signature", k);
    GetAfterDelete(Delete(q, "signature"), "hmac", k);
  }

  /** The message the platform signed: the query without its signature fields, encoded.
      It is empty exactly when the query holds nothing else. */
  function Message(q: seq<Param>, escape: string -> string): (m: string)
    ensures m == "" <==> forall i :: 0 <= i < |q| ==> q[i].0 == "signature" || q[i].0 == "hmac"
  {
    var signed := SignedParams(q);
    assert signed == [] <==> forall i :: 0 <= i < |q| ==> q[i].0 == "signature" || q[i].0 == "hmac" by {
      if signed != [] {
        assert signed[0] in signed;
      }
      assert forall i :: 0 <= i < |q| && q[i].0 != "signature" && q[i].0 != "hmac" ==> q[i] in signed;
    }
    Stringify(signed, escape)
  }

  /** The verdict of the comparison for the provided `hmac`: true exactly when it is,
      character for character, the hex digest of the message under the secret. */
  function Verify(q: seq<Param>, provided: string, secret: string,
                  hmacHex: (string, string) -> HexDigest, escape: string -> string): (ok: bool)
    ensures ok <==> provided == hmacHex(secret, Message(q, escape))
  {
    var digest := hmacHex(secret, Message(q, escape));
    var equal := HashEquals(Utf8(digest), Utf8(provided));
    if equal then
      assert forall i :: 0 <= i < |digest| ==> digest[i] as int < 0x80 by {
        assert forall i :: 0 <= i < |digest| ==> IsHexDigit(digest[i]);
      }
      Utf8MatchesAscii(provided, digest);
      equal
    else
      equal
  }

  /** How the platform signs a redirect: the hex digest of the encoded parameters,
      inserted as `hmac` at some position among them. */
  function Sign(before: seq<Param>, after: seq<Param>, secret: string,
                hmacHex: (string, string) -> HexDigest, escape: string -> string): seq<Param>
  {
    before + [("hmac", hmacHex(secret, Stringify(before + after, escape)))] + after
  }

  predicate Unsigned(params: seq<Param>)
  {
    forall i :: 0 <= i < |params| ==> params[i].0 != "hmac" && params[i].0 != "signature"
  }

  /** Deleting the signature fields from a signed query gives back what was signed,
      in its order, wherever the platform put `hmac`. */
  lemma SignedParamsOfSign(before: seq<Param>, after: seq<Param>, secret: string,
                           hmacHex: (string, string) -> HexDigest, escape: string -> string)
    requires Unsigned(before) && Unsigned(after)
    ensures SignedParams(Sign(before, after, secret, hmacHex, escape)) == before + after
  {
    var h := [("hmac", hmacHex(secret, Stringify(before + after, escape)))];
    var q := before + h + after;
    assert Delete(q, "signature") == q by {
      assert forall i :: 0 <= i < |q| ==> q[i].0 != "signature" by {
        assert forall i :: 0 <= i < |q| ==> q[i] in before || q[i] in h || q[i] in after;
      }
      DeleteAbsent(q, "signature");
    }
    assert Delete(before + h, "hmac") == before by {
      DeleteAppend(before, h, "hmac");
      DeleteAbsent(before, "hmac");
      assert Delete(h, "hmac") == [];
    }
    assert Delete(q, "hmac") == before + after by {
      DeleteAppend(before + h, after, "hmac");
      DeleteAbsent(after, "hmac");
    }
  }

  /** A signed query reads as the parameters did, plus the digest under `hmac`. */
  lemma SignedQueryReads(before: seq<Param>, after: seq<Param>, digest: string, k: string)
    requires Unsigned(before) && Unsigned(after)
    ensures Get(before + [("hmac", digest)] + after, k)
         == if k == "hmac" then Some(digest) else Get(before + after, k)
  {
    GetAppend(before + [("hmac", digest)], after, k);
    GetAppend(before, [("hmac", digest)], k);
    GetAppend(before, after, k);
  }

  /** Completeness: a query signed with the shared secret passes the comparison. */
  lemma VerifySigned(before: seq<Param>, after: seq<Param>, secret: string,
                     hmacHex: (string, string) -> HexDigest, escape: string -> string)
    requires Unsigned(before) && Unsigned(after)
    ensures var q := Sign(before, after, secret, hmacHex, escape);
      Get(q, "hmac") == Some(hmacHex(secret, Stringify(before + after, escape)))
      && Verify(q, Get(q, "hmac").value, secret, hmacHex, escape)
  {
    SignedParamsOfSign(before, after, secret, hmacHex, escape);
    SignedQueryReads(before, after, hmacHex(secret, Stringify(before + after, escape)), "hmac");
  }
}
