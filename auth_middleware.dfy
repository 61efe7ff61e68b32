/** The authentication middleware (middleware/auth.js): bearer-token extraction and the
    chain of 401 decisions that ends in the loaded user, the identity every protected
    route works with. JWT verification and the database lookup are library calls and are
    passed in as functions. */
module AuthMiddleware {

  import opened Wrappers
  import Strings
  import UserModel

  const BEARER := "Bearer "
  const NO_TOKEN := "No token, authorization denied"
  const TOKEN_INVALID := "Token is not valid"
  const USER_NOT_FOUND := "User not found"

  /** The part of a verified token the middleware reads: `decoded.user`, and its `id`. */
  datatype Claims = Claims(user: Option<ClaimedUser>)
  datatype ClaimedUser = ClaimedUser(id: Option<UserModel.Id>)

  /** `next()` with `req.user` set, or a 401 reply with its message. */
  datatype AuthOutcome =
    | Authenticated(user: UserModel.Principal)
    | Unauthorized(msg: string)

  /** `req.header('Authorization')?.replace('Bearer ', '')`: the first occurrence of
      `Bearer ` is removed wherever it stands; a missing header gives no token. */
  function ExtractToken(header: Option<string>): Option<string> {
    match header
    case None => None
    case Some(h) => Some(Strings.ReplaceFirst(h, BEARER, ""))
  }

  /** The decision chain. `verify` is `jwt.verify` (an `Err` is a thrown verification
      error); `lookup` is `User.findById` (an `Err` is a thrown database error). */
  function Authenticate(
    header: Option<string>,
    verify: string -> Result<Claims, string>,
    lookup: UserModel.Id -> Result<Option<UserModel.User>, string>)
    : (r: AuthOutcome)
    ensures r.Unauthorized? ==> r.msg in {NO_TOKEN, TOKEN_INVALID, USER_NOT_FOUND}
  {
    match ExtractToken(header)
    case None => Unauthorized(NO_TOKEN)
    case Some(token) =>
      if token == "" then Unauthorized(NO_TOKEN)
      else
        match verify(token)
        case Err(_) => Unauthorized(TOKEN_INVALID)
        case Ok(claims) =>
          match claims.user
          // reading `decoded.user.id` throws
          case None => Unauthorized(TOKEN_INVALID)
          // `findById(undefined)` queries for `_id: null` and finds nothing
          case Some(ClaimedUser(None)) => Unauthorized(USER_NOT_FOUND)
          case Some(ClaimedUser(Some(id))) =>
            match lookup(id)
            case Err(_) => Unauthorized(TOKEN_INVALID)
            case Ok(None) => Unauthorized(USER_NOT_FOUND)
            case Ok(Some(u)) => Authenticated(UserModel.Public(u))
  }

  /** The token of `Bearer <t>` is `t`, even when `t` itself contains `Bearer `. */
  lemma BearerPrefixRemoved(t: string)
    ensures ExtractToken(Some(BEARER + t)) == Some(t)
  {
    assert (BEARER + t)[..|BEARER|] == BEARER;
    assert Strings.OccursAt(BEARER + t, BEARER, 0);
    var r := Strings.IndexOf(BEARER + t, BEARER);
    assert r == Some(0);
    assert (BEARER + t)[..0] + "" + (BEARER + t)[0 + |BEARER|..] == t;
    assert Strings.ReplaceFirst(BEARER + t, BEARER, "") == t;
  }

  /** The removal is not anchored: text before the first `Bearer ` is kept. */
  lemma RemovalNotAnchored(a: string, t: string)
    requires forall j :: !Strings.OccursAt(a + BEARER, BEARER, j) || j == |a|
    ensures ExtractToken(Some(a + BEARER + t)) == Some(a + t)
  {
    var h := a + BEARER + t;
    assert Strings.OccursAt(h, BEARER, |a|) by {
      assert h[|a|..|a| + |BEARER|] == BEARER;
    }
    forall j | 0 <= j < |a| ensures !Strings.OccursAt(h, BEARER, j) {
      if Strings.OccursAt(h, BEARER, j) {
        if j + |BEARER| <= |a| + |BEARER| {
          assert h[j..j + |BEARER|] == (a + BEARER)[j..j + |BEARER|];
          assert Strings.OccursAt(a + BEARER, BEARER, j);
        }
      }
    }
    var r := Strings.IndexOf(h, BEARER);
    assert r == Some(|a|);
    assert h[..|a|] + "" + h[|a| + |BEARER|..] == a + t;
    assert Strings.ReplaceFirst(h, BEARER, "") == a + t;
  }

  /** With no header or an empty token the answer is "No token" whatever the verifier and
      the database would say: neither is consulted. */
  lemma NoTokenDecidesAlone(
    header: Option<string>,
    verify: string -> Result<Claims, string>, verify': string -> Result<Claims, string>,
    lookup: UserModel.Id -> Result<Option<UserModel.User>, string>,
    lookup': UserModel.Id -> Result<Option<UserModel.User>, string>)
    requires header.None? || ExtractToken(header) == Some("")
    ensures Authenticate(header, verify, lookup) == Unauthorized(NO_TOKEN)
    ensures Authenticate(header, verify', lookup') == Unauthorized(NO_TOKEN)
  {
  }

  /** A request gets through exactly when the token verifies, names a user id, and that
      user is found; it then carries that user, without password and OTP fields. */
  lemma AuthenticatedExactly(
    header: Option<string>,
    verify: string -> Result<Claims, string>,
    lookup: UserModel.Id -> Result<Option<UserModel.User>, string>)
    ensures Authenticate(header, verify, lookup).Authenticated? <==>
      (exists token, id, u ::
        ExtractToken(header) == Some(token) && token != "" &&
        verify(token) == Ok(Claims(Some(ClaimedUser(Some(id))))) &&
        lookup(id) == Ok(Some(u)))
    ensures forall token, id, u ::
      ExtractToken(header) == Some(token) && token != "" &&
      verify(token) == Ok(Claims(Some(ClaimedUser(Some(id))))) &&
      lookup(id) == Ok(Some(u)) ==>
        Authenticate(header, verify, lookup) == Authenticated(UserModel.Public(u))
  {
    if Authenticate(header, verify, lookup).Authenticated? {
      var token := ExtractToken(header).value;
      var id := verify(token).value.user.value.id.value;
      var u := lookup(id).value.value;
      assert ExtractToken(header) == Some(token) && token != "" &&
        verify(token) == Ok(Claims(Some(ClaimedUser(Some(id))))) &&
        lookup(id) == Ok(Some(u));
    }
  }
}
