/** The guard in front of the todo routes: a Bearer header is required, its second space-separated
    piece is the token, and a verified token's user id is attached to the request.
    The JWT library's signature and expiry check is the parameter `verify`: it yields the
    payload's user id, or fails. */
module AuthMiddleware {
  import opened Wrappers
  import opened Http
  import Text

  const BearerPrefix: string := "Bearer "
  const InvalidHeader: string := "Invalid or no authentication header"
  const NoTokenFound: string := "No token found"
  const InvalidToken: string := "Invalid token"

  /** `verifyToken`: whatever makes the library reject a token (bad signature, expiry, garbage),
      the error is rethrown with the one message "Invalid token". */
  function VerifyToken(verify: string -> Option<string>, token: string): (r: Result<string, string>)
    ensures r.Ok? <==> verify(token).Some?
    ensures r.Ok? ==> r.value == verify(token).value
    ensures r.Err? ==> r.error == InvalidToken
  {
    match verify(token)
    case Some(userId) => Ok(userId)
    case None => Err(InvalidToken)
  }

  /** `authorizationHeader.split(" ")[1]` for a header that starts with "Bearer ": the text after
      the prefix up to the next space (or the end). */
  function BearerToken(header: string): (token: string)
    requires Text.StartsWith(header, BearerPrefix)
    ensures var rest := header[|BearerPrefix|..];
      |token| <= |rest| && token == rest[..|token|] && ' ' !in token &&
      (|token| < |rest| ==> rest[|token|] == ' ')
  {
    var rest := header[|BearerPrefix|..];
    assert header == "Bearer" + [' '] + rest;
    Text.SplitAfterWord("Bearer", ' ', rest);
    Text.SplitFirstPiece(rest, ' ');
    Text.Split(header, ' ')[1]
  }

  /** `protectedRoute`: header check first, then token extraction, then verification. `Next(id)`
      stands for setting `req.userId := id` and calling `next()`. */
  function ProtectedRoute(header: Option<string>, verify: string -> Option<string>): (r: Outcome<string>)
    ensures header.None? || !Text.StartsWith(header.value, BearerPrefix) ==>
      r == Respond(Response(401, Message(InvalidHeader)))
    ensures header.Some? && Text.StartsWith(header.value, BearerPrefix) && BearerToken(header.value) == "" ==>
      r == Respond(Response(401, Message(NoTokenFound)))
    ensures header.Some? && Text.StartsWith(header.value, BearerPrefix) && BearerToken(header.value) != "" ==>
      r == match verify(BearerToken(header.value))
           case Some(userId) => Next(userId)
           case None => Respond(Response(401, Message(InvalidToken)))
    ensures r.Respond? ==> r.response.status == 401
    ensures r.Next? ==>
      header.Some? && Text.StartsWith(header.value, BearerPrefix) &&
      verify(BearerToken(header.value)) == Some(r.value)
  {
    if header.None? || header.value == "" || !Text.StartsWith(header.value, BearerPrefix) then
      Respond(Response(401, Message(InvalidHeader)))
    else
      var token := BearerToken(header.value);
      if token == "" then
        Respond(Response(401, Message(NoTokenFound)))
      else
        match VerifyToken(verify, token)
        case Ok(userId) => Next(userId)
        case Err(message) => Respond(Response(401, Message(message)))
  }

  /** A header "Bearer <token>" with a non-empty token free of spaces is decided by verifying that
      very token. */
  lemma {:induction false} BearerRoundTrip(token: string, verify: string -> Option<string>)
    requires token != "" && ' ' !in token
    ensures ProtectedRoute(Some(BearerPrefix + token), verify) ==
      match verify(token)
      case Some(userId) => Next(userId)
      case None => Respond(Response(401, Message(InvalidToken)))
  {
    var header := BearerPrefix + token;
    Text.StartsWithConcat(BearerPrefix, token);
    var t := BearerToken(header);
    var rest := header[|BearerPrefix|..];
    assert rest == token;
    assert t == token;
  }

  /** "Bearer " alone, and "Bearer" followed by two spaces, carry no token. */
  lemma EmptyTokenHeaders(verify: string -> Option<string>, tail: string)
    ensures ProtectedRoute(Some("Bearer "), verify) == Respond(Response(401, Message(NoTokenFound)))
    ensures ProtectedRoute(Some("Bearer  " + tail), verify) == Respond(Response(401, Message(NoTokenFound)))
  {
    assert Text.StartsWith("Bearer ", BearerPrefix);
    var h := "Bearer  " + tail;
    assert Text.StartsWith(h, BearerPrefix) by { assert h[..|BearerPrefix|] == BearerPrefix; }
    assert h[|BearerPrefix|..][0] == ' ';
  }
}
