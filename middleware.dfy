/**
 * `authMiddleware`: the bearer-header check in front of every workout
 * route. Its outcome is either a 401 response or the decoded payload that
 * becomes `req.user`, after which `next()` runs once.
 */
module Middleware {
  import opened Wrappers
  import opened Text
  import opened Tokens

  const BearerPrefix: string := "Bearer "
  const HeaderMalformed: string := "Authorization header missing or malformed"
  const TokenRejected: string := "Invalid or expired token"

  /** A 401 response without touching the request, or `req.user` set and `next()` called. */
  datatype GuardOutcome = Reject(status: int, message: string) | Next(user: Claims)

  /** `req.headers['authorization'] || req.headers['Authorization']`. */
  function AuthorizationHeader(headers: map<string, string>): (h: Option<string>)
    ensures "authorization" in headers && headers["authorization"] != "" ==> h == Some(headers["authorization"])
    ensures !("authorization" in headers && headers["authorization"] != "") && "Authorization" in headers ==>
      h == Some(headers["Authorization"])
    ensures h.Some? && h.value != "" ==>
      (exists name :: name in {"authorization", "Authorization"} && name in headers && headers[name] == h.value)
    ensures h.None? <==> (("authorization" in headers ==> headers["authorization"] == "") && "Authorization" !in headers)
  {
    if "authorization" in headers && headers["authorization"] != "" then Some(headers["authorization"])
    else if "Authorization" in headers then Some(headers["Authorization"])
    else None
  }

  /** A header that is present, non-empty and starts with exactly `Bearer ` (case-sensitive, one space). */
  predicate WellFormed(h: Option<string>) {
    h.Some? && h.value != "" && StartsWith(h.value, BearerPrefix)
  }

  /** After the prefix, `split(' ')` yields `Bearer` and then the fields of the rest. */
  lemma BearerFields(header: string)
    requires StartsWith(header, BearerPrefix)
    ensures Split(header, ' ') == ["Bearer"] + Split(header[|BearerPrefix|..], ' ')
    ensures ' ' !in header[|BearerPrefix|..] ==> Split(header[|BearerPrefix|..], ' ') == [header[|BearerPrefix|..]]
  {
    assert header == "Bearer" + [' '] + header[|BearerPrefix|..];
    SplitAfterField("Bearer", ' ', header[|BearerPrefix|..]);
    if ' ' !in header[|BearerPrefix|..] {
      SplitWithoutSeparator(header[|BearerPrefix|..], ' ');
    }
  }

  /** `authHeader.split(' ')[1]`: the text after `Bearer ` up to the next space. */
  function BearerToken(header: string): (token: string)
    requires StartsWith(header, BearerPrefix)
    ensures token == Split(header[|BearerPrefix|..], ' ')[0]
    ensures ' ' !in token
    ensures ' ' !in header[|BearerPrefix|..] ==> token == header[|BearerPrefix|..]
  {
    BearerFields(header);
    Split(header, ' ')[1]
  }

  /** `authMiddleware` at time `nowMs`. */
  function Authenticate(crypto: Crypto, headers: map<string, string>, nowMs: int): (r: GuardOutcome)
    ensures r == Reject(401, HeaderMalformed) <==> !WellFormed(AuthorizationHeader(headers))
    ensures WellFormed(AuthorizationHeader(headers)) ==>
      var token := BearerToken(AuthorizationHeader(headers).value);
      && (r == Reject(401, TokenRejected) <==> Verify(crypto, token, nowMs).None?)
      && (r.Next? ==> Verify(crypto, token, nowMs) == Some(r.user))
      && (Verify(crypto, token, nowMs).Some? ==> r == Next(Verify(crypto, token, nowMs).value))
    ensures r.Next? ==> WellFormed(AuthorizationHeader(headers)) && nowMs < r.user.exp * 1000
    ensures r.Reject? ==> r.status == 401
  {
    var header := AuthorizationHeader(headers);
    if !WellFormed(header) then Reject(401, HeaderMalformed)
    else
      match Verify(crypto, BearerToken(header.value), nowMs)
      case None => Reject(401, TokenRejected)
      case Some(decoded) => Next(decoded)
  }

  /** `Bearer ` with nothing after it hands the empty string to verification. */
  lemma EmptyBearerToken()
    ensures StartsWith("Bearer ", BearerPrefix) && BearerToken("Bearer ") == ""
  {
  }

  /** The prefix test is case-sensitive: `bearer ...` is malformed whatever follows. */
  lemma LowerCaseSchemeRejected(crypto: Crypto, token: string, nowMs: int)
    ensures Authenticate(crypto, map["authorization" := "bearer " + token], nowMs) == Reject(401, HeaderMalformed)
  {
  }

  /** Only the first space-separated field after the prefix is verified. */
  lemma ExtraFieldsIgnored(token: string, rest: string)
    requires ' ' !in token
    ensures StartsWith(BearerPrefix + token + " " + rest, BearerPrefix)
    ensures BearerToken(BearerPrefix + token + " " + rest) == token
  {
    var h := BearerPrefix + token + " " + rest;
    assert h[..|BearerPrefix|] == BearerPrefix;
    assert h[|BearerPrefix|..] == token + [' '] + rest;
    SplitAfterField(token, ' ', rest);
  }

  /**
   * A token issued at login, sent as `Bearer <token>`, lets the request
   * through with the issued claims until its hour is up and is refused with
   * `Invalid or expired token` from then on. A JWT has no spaces in it.
   */
  lemma IssuedTokenAccepted(crypto: Crypto, userId: string, username: string, issuedMs: int, nowMs: int)
    requires crypto.decode(Sign(crypto, userId, username, issuedMs)) == Some(Issue(userId, username, issuedMs))
    requires ' ' !in Sign(crypto, userId, username, issuedMs)
    ensures var c := Issue(userId, username, issuedMs);
      Authenticate(crypto, map["authorization" := BearerPrefix + Sign(crypto, userId, username, issuedMs)], nowMs)
        == if nowMs < c.iat * 1000 + Lifetime * 1000 then Next(c) else Reject(401, TokenRejected)
  {
    var token := Sign(crypto, userId, username, issuedMs);
    var header := BearerPrefix + token;
    assert header[..|BearerPrefix|] == BearerPrefix;
    assert header[|BearerPrefix|..] == token;
    assert BearerToken(header) == token;
    IssuedTokenLifetime(crypto, userId, username, issuedMs, nowMs);
  }
}
