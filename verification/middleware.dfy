/** The two request guards: requireAuth reads a bearer token from the
    Authorization header and attaches the verified user to the request;
    requireAdmin lets a request through only when that user is an admin.
    Token verification (signature and expiry) is an external function
    parameter that either yields the token's claims or fails. */
module AuthMiddleware {
  import opened Outcomes
  import opened Identity
  import opened Text

  const BearerPrefix: string := "Bearer "

  /** A bearer header splits at spaces into "Bearer" and at least one more
      piece. */
  lemma BearerSplit(header: string)
    requires StartsWith(header, BearerPrefix)
    ensures var pieces := Split(header, ' ');
      |pieces| >= 2 && pieces[0] == "Bearer"
      && pieces[1] == Split(header[|BearerPrefix|..], ' ')[0]
  {
    assert header == "Bearer" + [' '] + header[|BearerPrefix|..];
    SplitAfterPiece("Bearer", ' ', header[|BearerPrefix|..]);
  }

  /** The token handed to verification: the second space-separated segment
      of the header. */
  function BearerToken(header: string): (token: string)
    requires StartsWith(header, BearerPrefix)
    ensures ' ' !in token
  {
    BearerSplit(header);
    Split(header, ' ')[1]
  }

  /** A token without spaces is read back exactly from "Bearer " + token. */
  lemma {:induction false} BearerTokenRoundTrip(token: string)
    requires ' ' !in token
    ensures StartsWith(BearerPrefix + token, BearerPrefix)
    ensures BearerToken(BearerPrefix + token) == token
  {
    var h := BearerPrefix + token;
    assert h[..|BearerPrefix|] == BearerPrefix;
    BearerSplit(h);
    assert h[|BearerPrefix|..] == token;
    SplitWithoutSeparator(token, ' ');
  }

  /** Anything after a second space is not part of the token; with two
      spaces after "Bearer" the token is empty. */
  lemma {:induction false} BearerTokenStopsAtSpace(token: string, rest: string)
    requires ' ' !in token
    ensures StartsWith(BearerPrefix + token + [' '] + rest, BearerPrefix)
    ensures BearerToken(BearerPrefix + token + [' '] + rest) == token
  {
    var h := BearerPrefix + token + [' '] + rest;
    assert h[..|BearerPrefix|] == BearerPrefix;
    BearerSplit(h);
    assert h[|BearerPrefix|..] == token + [' '] + rest;
    SplitAfterPiece(token, ' ', rest);
  }

  /** requireAuth: a missing header, or one not starting with "Bearer ", is
      Unauthorized; a token that fails verification is InvalidToken;
      otherwise the request carries the payload's id and role. */
  function RequireAuth(header: Option<string>, verify: string -> Option<Claims>): (r: Result<Principal>)
    ensures header.None? ==> r == Err(Unauthorized)
    ensures header.Some? && !StartsWith(header.value, BearerPrefix) ==> r == Err(Unauthorized)
    ensures (header.Some? && StartsWith(header.value, BearerPrefix)
             && verify(BearerToken(header.value)).None?) ==> r == Err(InvalidToken)
    ensures r.Err? ==> r.error in {Unauthorized, InvalidToken}
    ensures r.Ok? <==>
      && header.Some? && StartsWith(header.value, BearerPrefix)
      && verify(BearerToken(header.value)).Some?
    ensures r.Ok? ==>
      verify(BearerToken(header.value)) == Some(Claims(r.value.id, r.value.role))
  {
    if header.None? || !StartsWith(header.value, BearerPrefix) then Err(Unauthorized)
    else
      match verify(BearerToken(header.value))
      case None => Err(InvalidToken)
      case Some(payload) => Ok(Principal(payload.id, payload.role))
  }

  /** The header a client sends with a token. */
  function BearerHeader(token: string): Option<string>
  {
    Some(BearerPrefix + token)
  }

  /** Presenting a space-free token: the outcome is decided by verifying
      exactly that token. */
  lemma AuthenticateBearer(token: string, verify: string -> Option<Claims>)
    requires ' ' !in token
    ensures verify(token).None? ==> RequireAuth(BearerHeader(token), verify) == Err(InvalidToken)
    ensures verify(token).Some? ==>
      RequireAuth(BearerHeader(token), verify)
      == Ok(Principal(verify(token).value.id, verify(token).value.role))
  {
    BearerTokenRoundTrip(token);
  }

  /** requireAdmin: passes the user through iff there is one and it is an
      admin; otherwise Forbidden. */
  function RequireAdmin(user: Option<Principal>): (r: Result<Principal>)
    ensures r.Ok? <==> user.Some? && user.value.role == Admin
    ensures r.Ok? ==> r.value == user.value
    ensures r.Err? ==> r.error == Forbidden
  {
    if user.None? || user.value.role != Admin then Err(Forbidden) else Ok(user.value)
  }
}
