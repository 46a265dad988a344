/**
 * The bearer-token middleware in front of the protected routes: one pass
 * over the `Authorization` header that either aborts the request with 401
 * or lets the next handler run with the verified identity.
 */
module Middleware {
  import opened Wrappers

  /** The identity a verified token carries. */
  datatype Claims = Claims(userId: nat, username: string)

  /** `Abort`: the 401 was written and no later handler runs. `Next`: the identity is set and the chain continues. */
  datatype Outcome = Abort(status: int, message: string) | Next(userId: nat, username: string)

  const Unauthorized := 401

  function AsciiLower(c: char): char {
    if 'A' <= c <= 'Z' then (c as int + 32) as char else c
  }

  /**
   * The scheme compared case-insensitively with "bearer". Folding ASCII
   * letters is enough: no other character lowers to one of the letters of
   * "bearer", so any other character makes the comparison fail either way.
   */
  predicate IsBearer(scheme: string) {
    |scheme| == 6 && forall i :: 0 <= i < 6 ==> AsciiLower(scheme[i]) == "bearer"[i]
  }

  /**
   * `strings.SplitN(header, " ", 2)` when it yields two parts: the text
   * before the first space and everything after it; `None` when the
   * header holds no space (one part).
   */
  function SplitAtFirstSpace(header: string): (r: Option<(string, string)>)
    ensures r.None? <==> ' ' !in header
    ensures r.Some? ==> header == r.value.0 + " " + r.value.1 && ' ' !in r.value.0
  {
    if |header| == 0 then None
    else if header[0] == ' ' then Some(("", header[1..]))
    else match SplitAtFirstSpace(header[1..])
      case None => None
      case Some((scheme, token)) => Some(([header[0]] + scheme, token))
  }

  /**
   * The middleware's three checks in order: a missing header, a header that
   * is not "<scheme> <token>" with scheme "bearer", and a token that does
   * not verify each abort with 401; otherwise the verified claims go on.
   */
  function Classify(header: string, verify: string -> Option<Claims>): (r: Outcome)
    ensures r.Abort? ==> r.status == Unauthorized
    ensures header == "" ==> r == Abort(Unauthorized, "missing authorization header")
    ensures header != "" && (' ' !in header || !IsBearer(SplitAtFirstSpace(header).value.0))
            ==> r == Abort(Unauthorized, "invalid authorization header")
    ensures r.Abort? && header != "" && ' ' in header && IsBearer(SplitAtFirstSpace(header).value.0)
            ==> r.message == "invalid or expired token"
    ensures r.Next? <==> header != "" && ' ' in header && IsBearer(SplitAtFirstSpace(header).value.0)
                         && verify(SplitAtFirstSpace(header).value.1).Some?
    ensures r.Next? ==> verify(SplitAtFirstSpace(header).value.1) == Some(Claims(r.userId, r.username))
  {
    if header == "" then Abort(Unauthorized, "missing authorization header")
    else match SplitAtFirstSpace(header)
      case None => Abort(Unauthorized, "invalid authorization header")
      case Some((scheme, token)) =>
        if !IsBearer(scheme) then Abort(Unauthorized, "invalid authorization header")
        else match verify(token)
          case None => Abort(Unauthorized, "invalid or expired token")
          case Some(claims) => Next(claims.userId, claims.username)
  }

  /** The split is the unique decomposition at a space-free prefix. */
  lemma {:induction false} SplitUnique(scheme: string, token: string)
    requires ' ' !in scheme
    ensures SplitAtFirstSpace(scheme + " " + token) == Some((scheme, token))
  {
    if |scheme| > 0 {
      assert (scheme + " " + token)[1..] == scheme[1..] + " " + token;
      SplitUnique(scheme[1..], token);
      assert [scheme[0]] + scheme[1..] == scheme;
    } else {
      assert scheme + " " + token == " " + token;
    }
  }

  /** Every capitalization of "bearer" is accepted as the scheme, and nothing else. */
  lemma BearerSchemes(scheme: string)
    ensures IsBearer(scheme) <==>
              (|scheme| == 6 && forall i :: 0 <= i < 6 ==> scheme[i] == "bearer"[i] || scheme[i] == "BEARER"[i])
    ensures IsBearer("Bearer") && IsBearer("BEARER") && IsBearer("bearer") && IsBearer("bEaReR")
    ensures !IsBearer("Basic") && !IsBearer("Bearer:") && !IsBearer("")
  {
    assert !IsBearer("Basic") by { assert |"Basic"| == 5; }
  }

  /**
   * With a bearer scheme, the token handed to verification is everything
   * after the first space, further spaces included, and the outcome is
   * decided by that verification alone.
   */
  lemma TokenIsRestOfHeader(scheme: string, token: string, verify: string -> Option<Claims>)
    requires ' ' !in scheme && IsBearer(scheme)
    ensures Classify(scheme + " " + token, verify) ==
      match verify(token)
      case None => Abort(Unauthorized, "invalid or expired token")
      case Some(c) => Next(c.userId, c.username)
  {
    SplitUnique(scheme, token);
  }

  /** "Bearer " with nothing after it reaches verification with the empty token, which is refused. */
  lemma EmptyTokenRejected(verify: string -> Option<Claims>)
    requires verify("") == None
    ensures Classify("Bearer ", verify) == Abort(Unauthorized, "invalid or expired token")
  {
    assert "Bearer " == "Bearer" + " " + "";
    TokenIsRestOfHeader("Bearer", "", verify);
  }

  /** A header that fails the first or second check aborts whatever the verifier would have said. */
  lemma MalformedNeverVerified(header: string, v1: string -> Option<Claims>, v2: string -> Option<Claims>)
    requires header == "" || ' ' !in header || !IsBearer(SplitAtFirstSpace(header).value.0)
    ensures Classify(header, v1) == Classify(header, v2)
    ensures Classify(header, v1).Abort?
  {
  }

  /**
   * When verification accepts every token the server issues (the signing
   * round trip), a token issued for a user authorizes a request as that
   * user once sent as "Bearer <token>".
   */
  lemma IssuedTokenAuthorizes(issue: (nat, string) -> Option<string>, verify: string -> Option<Claims>,
                              id: nat, username: string, token: string)
    requires forall i, n, t :: issue(i, n) == Some(t) ==> verify(t) == Some(Claims(i, n))
    requires issue(id, username) == Some(token)
    ensures Classify("Bearer " + token, verify) == Next(id, username)
  {
    assert "Bearer " + token == "Bearer" + " " + token;
    TokenIsRestOfHeader("Bearer", token, verify);
  }
}
