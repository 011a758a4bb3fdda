/** The anti-forgery gate: a double-submit token check with a same-origin
    check on the host, and the get-or-mint of the token cookie. */
module Csrf {
  import opened Types

  datatype CsrfError = TokenMismatch | InvalidOrigin

  datatype Verdict = Pass | Fail(error: CsrfError)

  /** `verifyCsrf`. The header and cookie values are given as read from the
      request (`None` when absent); `originHost` stands for
      `new URL(origin).host`, with `None` where the constructor throws. */
  function VerifyCsrf(headerToken: Option<string>, cookieToken: Option<string>,
                      origin: Option<string>, host: Option<string>,
                      originHost: string -> Option<string>): (r: Verdict)
    ensures r == Fail(TokenMismatch) <==>
      (headerToken.GetOr("") == "" || cookieToken.GetOr("") == "" || headerToken.GetOr("") != cookieToken.GetOr(""))
    ensures r.Pass? ==> headerToken.Some? && headerToken == cookieToken && headerToken.value != ""
  {
    var headerValue := headerToken.GetOr("");
    var cookieValue := cookieToken.GetOr("");
    if headerValue == "" || cookieValue == "" || headerValue != cookieValue then Fail(TokenMismatch)
    else if origin.Some? && origin.value != "" then
      match originHost(origin.value)
      case None => Fail(InvalidOrigin)
      case Some(h) => if h != host.GetOr("") then Fail(InvalidOrigin) else Pass
    else Pass
  }

  /** The check passes exactly when both tokens are present, non-empty and
      equal, and either no Origin is sent or its host parses and equals the
      Host header (taken as '' when absent). */
  lemma VerifyCsrfPassIff(headerToken: Option<string>, cookieToken: Option<string>,
                          origin: Option<string>, host: Option<string>,
                          originHost: string -> Option<string>)
    ensures VerifyCsrf(headerToken, cookieToken, origin, host, originHost).Pass? <==>
      && headerToken.Some? && cookieToken.Some? && headerToken.value != "" && headerToken.value == cookieToken.value
      && (origin.None? || origin.value == "" || originHost(origin.value) == Some(host.GetOr("")))
  {
  }

  /** With matching tokens and no Origin header the request is let through,
      whatever the Host header and however origins would parse. */
  lemma NoOriginPasses(token: string, host: Option<string>, originHost: string -> Option<string>)
    requires token != ""
    ensures VerifyCsrf(Some(token), Some(token), None, host, originHost) == Pass
  {
  }

  // ---- The token cookie ----

  type Byte = b: int | 0 <= b < 256

  predicate IsHexChar(c: char) {
    '0' <= c <= '9' || 'a' <= c <= 'f'
  }

  /** The lower-case hex digit of a nibble. */
  function HexDigit(d: nat): (c: char)
    requires d < 16
    ensures IsHexChar(c)
  {
    if d < 10 then ('0' as int + d) as char else ('a' as int + d - 10) as char
  }

  function HexValue(c: char): (d: nat)
    requires IsHexChar(c)
    ensures d < 16 && HexDigit(d) == c
  {
    if '0' <= c <= '9' then (c as int - '0' as int) as nat else (c as int - 'a' as int + 10) as nat
  }

  /** `Buffer.toString('hex')`: two lower-case hex digits per byte, high nibble first. */
  function Hex(bytes: seq<Byte>): (s: string)
    ensures |s| == 2 * |bytes|
    ensures forall i :: 0 <= i < |s| ==> IsHexChar(s[i])
  {
    if bytes == [] then []
    else [HexDigit(bytes[0] / 16), HexDigit(bytes[0] % 16)] + Hex(bytes[1..])
  }

  function FromHex(s: string): (bytes: seq<Byte>)
    requires |s| % 2 == 0 && forall i :: 0 <= i < |s| ==> IsHexChar(s[i])
    ensures |bytes| == |s| / 2
  {
    if s == [] then []
    else [HexValue(s[0]) * 16 + HexValue(s[1])] + FromHex(s[2..])
  }

  lemma HexValueOfDigit(d: nat)
    requires d < 16
    ensures HexValue(HexDigit(d)) == d
  {
  }

  /** The hex text of the random bytes determines them. */
  lemma {:induction false} FromHexInvertsHex(bytes: seq<Byte>)
    ensures FromHex(Hex(bytes)) == bytes
  {
    if bytes != [] {
      var b := bytes[0];
      var s := Hex(bytes);
      assert s[0] == HexDigit(b / 16) && s[1] == HexDigit(b % 16);
      HexValueOfDigit(b / 16);
      HexValueOfDigit(b % 16);
      assert b == (b / 16) * 16 + b % 16;
      assert s[2..] == Hex(bytes[1..]);
      FromHexInvertsHex(bytes[1..]);
    }
  }

  /** The cookie as `jar.set` writes it. */
  datatype Cookie = Cookie(value: string, path: string, sameSite: string, secure: bool, httpOnly: bool, maxAge: int)

  const CookieMaxAge: int := 60 * 60 * 24

  function TokenCookie(token: string, production: bool): Cookie {
    Cookie(token, "/", "strict", production, false, CookieMaxAge)
  }

  /** The request's cookie jar. */
  class CookieJar {
    var cookies: map<string, Cookie>

    constructor (initial: map<string, Cookie>)
      ensures cookies == initial
    {
      cookies := initial;
    }

    /** `jar.get(name)?.value`, with '' standing for a missing cookie. */
    function Get(name: string): (v: string)
      reads this
      ensures name in cookies ==> v == cookies[name].value
      ensures name !in cookies ==> v == ""
    {
      if name in cookies then cookies[name].value else ""
    }
  }

  /** `setCsrfCookie`: returns the existing token, or mints one from 32
      random bytes, hex-encodes it, stores it in the jar and returns it.
      `production` is `NODE_ENV === 'production'`. */
  method SetCsrfCookie(jar: CookieJar, name: string, entropy: seq<Byte>, production: bool) returns (token: string)
    requires |entropy| == 32
    modifies jar
    ensures old(jar.Get(name)) != "" ==> token == old(jar.Get(name)) && jar.cookies == old(jar.cookies)
    ensures old(jar.Get(name)) == "" ==>
      token == Hex(entropy) && jar.cookies == old(jar.cookies)[name := TokenCookie(token, production)]
    ensures |token| > 0 && jar.Get(name) == token
  {
    token := jar.Get(name);
    if token == "" {
      token := Hex(entropy);
      jar.cookies := jar.cookies[name := TokenCookie(token, production)];
    }
  }

  /** A minted token is 64 hex characters and encodes exactly the 32 bytes drawn. */
  lemma MintedTokenShape(entropy: seq<Byte>)
    requires |entropy| == 32
    ensures |Hex(entropy)| == 64
    ensures forall i :: 0 <= i < 64 ==> IsHexChar(Hex(entropy)[i])
    ensures FromHex(Hex(entropy)) == entropy
  {
    FromHexInvertsHex(entropy);
  }

  /** Two consecutive calls return the same token: the first leaves a
      non-empty token in the jar, which the second finds and returns. */
  method SetCsrfCookieTwice(jar: CookieJar, name: string, e1: seq<Byte>, e2: seq<Byte>, production: bool)
    returns (t1: string, t2: string)
    requires |e1| == 32 && |e2| == 32
    modifies jar
    ensures t1 == t2
  {
    t1 := SetCsrfCookie(jar, name, e1, production);
    t2 := SetCsrfCookie(jar, name, e2, production);
  }
}
