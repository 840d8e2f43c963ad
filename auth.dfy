/**
 * The authentication middleware `protect`, the `admin` gate, and the ownership
 * rules the handlers apply to an authenticated actor.
 *
 * `jwt.verify` is the parameter `verify` (None when the signature or expiry
 * check throws), and the user collection is the map `users` from id to user.
 */
module Auth {
  import opened Wrappers
  import opened Common
  import Text

  /** The roles a user record may hold (`user` is the default). */
  datatype Role = RoleUser | RoleAdmin

  /** The part of a user record the handlers read from `req.user`. */
  datatype User = User(id: UserId, role: Role)

  /** A decoded token: `{ user: { id } }` in the current format, `{ id }` in the older one. */
  datatype Payload = Payload(user: Option<PayloadUser>, id: Option<string>)
  datatype PayloadUser = PayloadUser(id: Option<string>)

  /** The token `protect` extracts: the `token` cookie first, else the word after a `Bearer` header. */
  function SelectToken(cookie: Option<string>, authorization: Option<string>): (t: Option<string>)
    ensures Text.Truthy(cookie) ==> t == cookie
    ensures !Text.Truthy(cookie) ==>
      (t.Some? <==> Text.Truthy(authorization) && Text.StartsWith(authorization.value, "Bearer")
                    && |Text.Split(authorization.value, ' ')| >= 2)
    ensures !Text.Truthy(cookie) && t.Some? ==> t.value == Text.Split(authorization.value, ' ')[1]
  {
    if Text.Truthy(cookie) then cookie
    else if Text.Truthy(authorization) && Text.StartsWith(authorization.value, "Bearer") then
      var words := Text.Split(authorization.value, ' ');
      if |words| >= 2 then Some(words[1]) else None
    else None
  }

  /** With no cookie, a header `Bearer <token>` yields exactly that token. */
  lemma BearerHeaderToken(token: string)
    requires ' ' !in token
    ensures SelectToken(None, Some("Bearer " + token)) == Some(token)
  {
    var header := "Bearer " + token;
    assert header == Text.Join(["Bearer", token], ' ');
    Text.SplitJoin(["Bearer", token], ' ');
    assert Text.StartsWith(header, "Bearer");
  }

  /** `decoded.user?.id || decoded.id`: the first of the two ids that is truthy. */
  function PayloadUserId(p: Payload): (r: Option<string>)
    ensures r.Some? ==> r.value != ""
    ensures p.user.Some? && Text.Truthy(p.user.value.id) ==> r == p.user.value.id
    ensures !(p.user.Some? && Text.Truthy(p.user.value.id)) ==> (r.Some? <==> Text.Truthy(p.id)) && (r.Some? ==> r == p.id)
  {
    if p.user.Some? && Text.Truthy(p.user.value.id) then p.user.value.id
    else if Text.Truthy(p.id) then p.id
    else None
  }

  const NotAuthorizedRoute := "Not authorized to access this route"

  /**
   * `protect`: 401 with "Not authorized to access this route" when there is no
   * token or it does not verify, "Invalid token format" when the payload has no
   * user id, "User not found" when no user has that id; otherwise the user found.
   */
  function Authenticate(cookie: Option<string>, authorization: Option<string>,
                        verify: string -> Option<Payload>, users: map<UserId, User>): (r: Outcome<User>)
    ensures r.Failure? ==> r.status == Unauthorized
    ensures r.Success? <==>
      var t := SelectToken(cookie, authorization);
      && Text.Truthy(t) && verify(t.value).Some?
      && PayloadUserId(verify(t.value).value).Some?
      && PayloadUserId(verify(t.value).value).value in users
    ensures r.Success? ==>
      var t := SelectToken(cookie, authorization);
      r.value == users[PayloadUserId(verify(t.value).value).value]
  {
    var token := SelectToken(cookie, authorization);
    if !Text.Truthy(token) then Failure(Unauthorized, NotAuthorizedRoute)
    else match verify(token.value)
      case None => Failure(Unauthorized, NotAuthorizedRoute)
      case Some(decoded) =>
        match PayloadUserId(decoded)
        case None => Failure(Unauthorized, "Invalid token format")
        case Some(id) =>
          if id in users then Success(users[id]) else Failure(Unauthorized, "User not found")
  }

  /** A cookie token wins: whatever the header says, a truthy cookie is the token verified. */
  lemma CookieWins(cookie: string, header1: Option<string>, header2: Option<string>,
                   verify: string -> Option<Payload>, users: map<UserId, User>)
    requires cookie != ""
    ensures Authenticate(Some(cookie), header1, verify, users) == Authenticate(Some(cookie), header2, verify, users)
  {
  }

  /** A request as `protect` sees it: its cookie, its `Authorization` header, and `req.user`. */
  class Request {
    const cookieToken: Option<string>
    const authorization: Option<string>
    var user: Option<User>

    constructor (cookieToken: Option<string>, authorization: Option<string>)
      ensures this.cookieToken == cookieToken && this.authorization == authorization
      ensures user == None
    {
      this.cookieToken := cookieToken;
      this.authorization := authorization;
      user := None;
    }

    /** Runs `protect`: on success sets `req.user` and lets the request through; otherwise answers 401. */
    method Protect(verify: string -> Option<Payload>, users: map<UserId, User>) returns (r: Outcome<User>)
      modifies this`user
      ensures r == Authenticate(cookieToken, authorization, verify, users)
      ensures user == if r.Success? then Some(r.value) else old(user)
    {
      var token: Option<string> := None;
      if Text.Truthy(cookieToken) {
        token := cookieToken;
      }
      if !Text.Truthy(token) && Text.Truthy(authorization) && Text.StartsWith(authorization.value, "Bearer") {
        var words := Text.Split(authorization.value, ' ');
        token := if |words| >= 2 then Some(words[1]) else None;
      }
      if !Text.Truthy(token) {
        return Failure(Unauthorized, NotAuthorizedRoute);
      }
      var decoded := verify(token.value);
      if decoded.None? {
        return Failure(Unauthorized, NotAuthorizedRoute);
      }
      var userId := PayloadUserId(decoded.value);
      if userId.None? {
        return Failure(Unauthorized, "Invalid token format");
      }
      if userId.value !in users {
        return Failure(Unauthorized, "User not found");
      }
      user := Some(users[userId.value]);
      r := Success(users[userId.value]);
    }
  }

  /** The `admin` middleware: lets through exactly a present user whose role is admin, else 403. */
  function AdminGate(user: Option<User>): (r: Outcome<User>)
    ensures r.Success? <==> user.Some? && user.value.role == RoleAdmin
    ensures r.Success? ==> r.value == user.value
    ensures r.Failure? ==> r.status == Forbidden
  {
    if user.Some? && user.value.role == RoleAdmin then Success(user.value)
    else Failure(Forbidden, "Not authorized as admin")
  }

  /** Editing a blog or a comment: only its author; being an admin does not help. */
  predicate MayEdit(actor: User, author: UserId) {
    actor.id == author
  }

  /** Deleting a blog or a comment: its author or any admin. */
  predicate MayDelete(actor: User, author: UserId) {
    actor.id == author || actor.role == RoleAdmin
  }
}
