/**
 * `authenticate` of src/middlewares/authMiddleware.js: take the bearer token
 * from the Authorization header, have it verified, and either pass the request
 * on with its user set or answer 401. Token verification (jsonwebtoken) is
 * passed in as a function that yields the claims of a good token.
 */
module AuthMiddleware {
  import opened Wrappers
  import opened Http
  import opened Strings
  import opened Accounts

  const BearerPrefix := "Bearer "

  /**
   * The token `authenticate` hands to verification: `authHeader.split(' ')[1]`
   * for a header that starts with the exact prefix "Bearer ", none otherwise.
   * It is the text after the prefix up to the next space.
   */
  function ExtractToken(header: Option<string>): (t: Option<string>)
    ensures t.Some? <==> header.Some? && StartsWith(header.value, BearerPrefix)
    ensures t.Some? ==>
      var rest := header.value[|BearerPrefix|..];
      && t.value <= rest && ' ' !in t.value
      && (|t.value| == |rest| || rest[|t.value|] == ' ')
  {
    if header.None? || !StartsWith(header.value, BearerPrefix) then None
    else
      var h := header.value;
      assert h == "Bearer" + [' '] + h[|BearerPrefix|..];
      SplitAfterField("Bearer", ' ', h[|BearerPrefix|..]);
      Some(Split(h, ' ')[1])
  }

  /** Text after a further space is not part of the token. */
  lemma TokenIgnoresTrailingText(token: string, trailing: string)
    requires ' ' !in token
    ensures ExtractToken(Some(BearerPrefix + token + " " + trailing)) == Some(token)
  {
    var h := BearerPrefix + token + " " + trailing;
    assert h[..|BearerPrefix|] == BearerPrefix;
    var rest := h[|BearerPrefix|..];
    assert rest == token + " " + trailing;
    var t := ExtractToken(Some(h)).value;
    assert t <= rest;
    assert forall k :: 0 <= k < |token| ==> rest[k] == token[k] && token[k] in token;
    assert rest[|token|] == ' ';
    assert forall k :: 0 <= k < |t| ==> t[k] == rest[k] && t[k] in t;
    assert |t| == |token|;
    assert t == rest[..|t|] == token;
  }

  /** One request passing through the middleware. */
  class Exchange {
    /** `req.headers.authorization`. */
    const authorization: Option<string>
    /** `req.user`. */
    var user: Option<Claims>
    /** How many times `next()` has been called. */
    var nextCalls: nat
    /** The replies written to `res`. */
    var replies: seq<Reply<()>>

    constructor (authorization: Option<string>)
      ensures this.authorization == authorization
      ensures user == None && nextCalls == 0 && replies == []
    {
      this.authorization := authorization;
      user := None;
      nextCalls := 0;
      replies := [];
    }
  }

  /** `authenticate(req, res, next)`. */
  method Authenticate(x: Exchange, verify: string -> Option<Claims>)
    modifies x
    ensures ExtractToken(x.authorization).None? ==>
      && x.replies == old(x.replies) + [Error(401, "No token provided")]
      && x.user == old(x.user) && x.nextCalls == old(x.nextCalls)
    ensures ExtractToken(x.authorization).Some? && verify(ExtractToken(x.authorization).value).None? ==>
      && x.replies == old(x.replies) + [Error(401, "Invalid token")]
      && x.user == old(x.user) && x.nextCalls == old(x.nextCalls)
    ensures ExtractToken(x.authorization).Some? && verify(ExtractToken(x.authorization).value).Some? ==>
      && x.user == verify(ExtractToken(x.authorization).value)
      && x.nextCalls == old(x.nextCalls) + 1 && x.replies == old(x.replies)
    ensures (x.nextCalls == old(x.nextCalls) + 1) != (|x.replies| == |old(x.replies)| + 1)
  {
    var token := ExtractToken(x.authorization);
    if token.None? {
      x.replies := x.replies + [Error(401, "No token provided")];
      return;
    }
    var decoded := verify(token.value);
    if decoded.None? {
      x.replies := x.replies + [Error(401, "Invalid token")];
      return;
    }
    x.user := decoded;
    x.nextCalls := x.nextCalls + 1;
  }
}
