/**
 * The user controller of the video-sharing backend: account registration,
 * login, logout, refresh-token rotation, password change and profile
 * updates, as transitions on a store of user documents.
 *
 * Everything the handlers delegate is a parameter: what the token signer
 * returned, what the media host answered to an upload or a delete, and
 * whether a presented token has expired. JWT verification is a lookup in
 * the table of refresh tokens the server has signed so far.
 */
module Accounts {
  import opened Wrappers
  import opened Js
  import opened Validation
  import opened MediaKey

  type UserId = nat

  /** A stored user document (the watch history is not part of this model). */
  datatype User = User(
    username: string,
    email: string,
    fullName: string,
    password: string,             // stands for the stored hash of the password
    avatar: string,
    coverImage: string,
    refreshToken: Option<string>) // None: no token stored (never set, or cleared by logout)

  /** A user document read with `.select("-password -refreshToken")`. */
  datatype UserView = UserView(
    id: UserId, username: string, email: string, fullName: string, avatar: string, coverImage: string)

  function View(id: UserId, u: User): UserView {
    UserView(id, u.username, u.email, u.fullName, u.avatar, u.coverImage)
  }

  /**
   * The view leaves out exactly the password and the refresh token: it does
   * not depend on them, and two documents with the same view, password and
   * token are the same document.
   */
  lemma ViewOmitsSecrets(id: UserId, u: User, w: User)
    ensures forall password, token :: View(id, u.(password := password, refreshToken := token)) == View(id, u)
    ensures View(id, u) == View(id, w) && u.password == w.password && u.refreshToken == w.refreshToken ==> u == w
  {
  }

  /**
   * What a handler throws: an `ApiError` with its HTTP status, or any other
   * exception (a TypeError, a database validation or duplicate-key error),
   * which the async wrapper hands on to the framework's error handling.
   */
  datatype Thrown = ApiError(status: nat) | Uncaught

  datatype Cookie = SetCookie(name: string, value: JsValue) | ClearCookie(name: string)

  /** The `data` of the response envelope. */
  datatype Payload =
    | NoData
    | Profile(profile: Option<UserView>)
    | Session(user: UserView, accessToken: string, refreshToken: string)
    | Renewed(accessToken: string, sentRefreshToken: JsValue)

  /** HTTP status, envelope data and the cookies set or cleared. */
  datatype Response = Response(status: nat, payload: Payload, cookies: seq<Cookie>)

  /** What the token signer produced for one user. */
  datatype TokenPair = TokenPair(accessToken: string, refreshToken: string)

  /** The media host's answer to an upload: nothing at all, or a record carrying a URL. */
  datatype Upload = UploadFailed | Uploaded(url: string)

  /** `req.files`: absent, or the arrays of uploaded files per form field, each file given by its path. */
  datatype Files = NoFiles | Files(avatar: Option<seq<string>>, coverImage: Option<seq<string>>)

  datatype ImageField = Avatar | CoverImage

  /** `{ $or: [{ username }, { email }] }` tested against one document. */
  predicate Matches(u: User, username: JsValue, email: JsValue) {
    (username.Str? && username.s == u.username) || (email.Str? && email.s == u.email)
  }

  predicate AnyMatch(users: map<UserId, User>, username: JsValue, email: JsValue) {
    exists id :: id in users && Matches(users[id], username, email)
  }

  /** The first matching document among the ids `from` up to `bound`. */
  function FindFrom(users: map<UserId, User>, username: JsValue, email: JsValue, from: nat, bound: nat)
    : (r: Option<UserId>)
    decreases bound - from
    ensures r.Some? ==> from <= r.value < bound && r.value in users && Matches(users[r.value], username, email)
    ensures r.Some? ==> forall id :: from <= id < r.value && id in users ==> !Matches(users[id], username, email)
    ensures r.None? ==> forall id :: from <= id < bound && id in users ==> !Matches(users[id], username, email)
  {
    if from >= bound then None
    else if from in users && Matches(users[from], username, email) then Some(from)
    else FindFrom(users, username, email, from + 1, bound)
  }

  /** `User.findOne({ $or: ... })`: the earliest inserted matching document. */
  function FindOne(users: map<UserId, User>, username: JsValue, email: JsValue, bound: nat): (r: Option<UserId>)
    ensures r.Some? ==> r.value in users && Matches(users[r.value], username, email)
    ensures r.Some? ==> forall id :: id < r.value && id in users ==> !Matches(users[id], username, email)
    ensures r.None? ==> forall id :: id < bound && id in users ==> !Matches(users[id], username, email)
  {
    FindFrom(users, username, email, 0, bound)
  }

  ghost predicate IdsBelow(users: map<UserId, User>, bound: nat) {
    forall id :: id in users ==> id < bound
  }

  /** `findOne` finds a document exactly when some document matches, and then the oldest one. */
  lemma FindOneFindsAny(users: map<UserId, User>, username: JsValue, email: JsValue, bound: nat)
    requires IdsBelow(users, bound)
    ensures FindOne(users, username, email, bound).Some? <==> AnyMatch(users, username, email)
    ensures FindOne(users, username, email, bound).Some? ==>
      forall id :: id in users && Matches(users[id], username, email) ==> FindOne(users, username, email, bound).value <= id
  {
  }

  /** The unique indexes on `username` and `email`. */
  ghost predicate UniqueKeys(users: map<UserId, User>) {
    forall a, b :: a in users && b in users && a != b ==>
      users[a].username != users[b].username && users[a].email != users[b].email
  }

  predicate KeyTaken(users: map<UserId, User>, username: string, email: string) {
    exists id :: id in users && (users[id].username == username || users[id].email == email)
  }

  predicate EmailTakenByOther(users: map<UserId, User>, uid: UserId, email: string) {
    exists id :: id in users && id != uid && users[id].email == email
  }

  /** Usernames are stored lower-cased. */
  ghost predicate LowerCaseNames(users: map<UserId, User>) {
    forall id :: id in users ==> Lower(users[id].username) == users[id].username
  }

  /** Every stored refresh token was signed by the server for the user holding it. */
  ghost predicate TokensSigned(users: map<UserId, User>, signed: map<string, UserId>) {
    forall id :: id in users && users[id].refreshToken.Some? ==>
      users[id].refreshToken.value in signed && signed[users[id].refreshToken.value] == id
  }

  /**
   * A signed token's text determines its payload: a token pair about to be
   * issued for `owner` cannot repeat the text of a token signed for someone
   * else. Two tokens for the same user signed in the same second coincide.
   */
  predicate SignerAgrees(signed: map<string, UserId>, issued: Option<TokenPair>, owner: Option<UserId>) {
    issued.Some? && owner.Some? && issued.value.refreshToken in signed ==>
      signed[issued.value.refreshToken] == owner.value
  }

  /**
   * `jwt.verify(token, REFRESH_TOKEN_SECRET)?._id`: the user id inside a
   * string the server signed that has not expired; verification throws for
   * anything else.
   */
  function Verified(signed: map<string, UserId>, token: JsValue, expired: bool): (id: Option<UserId>)
    ensures id.Some? ==> token.Str? && !expired && token.s in signed && signed[token.s] == id.value
    ensures token.Str? && token.s in signed && !expired ==> id.Some?
  {
    if token.Str? && token.s in signed && !expired then Some(signed[token.s]) else None
  }

  /** The checks of the refresh handler: a presented, verified token equal to its owner's stored token. */
  predicate Accepts(users: map<UserId, User>, signed: map<string, UserId>, token: JsValue, expired: bool) {
    && Truthy(token)
    && token.Str?
    && Verified(signed, token, expired).Some?
    && Verified(signed, token, expired).value in users
    && users[Verified(signed, token, expired).value].refreshToken == Some(token.s)
  }

  /** A refresh is accepted exactly for a live token that some user currently has stored. */
  lemma AcceptsIffStored(users: map<UserId, User>, signed: map<string, UserId>, t: string, expired: bool)
    requires TokensSigned(users, signed)
    ensures Accepts(users, signed, Str(t), expired) <==>
      t != "" && !expired && exists id :: id in users && users[id].refreshToken == Some(t)
  {
  }

  /**
   * Rotation: once a user's stored token `previous` is replaced by a
   * different `next`, `previous` is accepted for nobody, and `next` is
   * accepted while live.
   */
  lemma RotationRevokes(users: map<UserId, User>, signed: map<string, UserId>, id: UserId,
                        previous: string, next: string, expired: bool)
    requires TokensSigned(users, signed)
    requires id in users && users[id].refreshToken == Some(previous) && previous != next
    requires next !in signed || signed[next] == id
    ensures var users', signed' := users[id := users[id].(refreshToken := Some(next))], signed[next := id];
      && TokensSigned(users', signed')
      && !Accepts(users', signed', Str(previous), expired)
      && (next != "" && !expired ==> Accepts(users', signed', Str(next), expired))
  {
  }

  /** Logout: the token the user held is accepted for nobody afterwards. */
  lemma LogoutRevokes(users: map<UserId, User>, signed: map<string, UserId>, id: UserId, t: string, expired: bool)
    requires TokensSigned(users, signed)
    requires id in users && users[id].refreshToken == Some(t)
    ensures !Accepts(users[id := users[id].(refreshToken := None)], signed, Str(t), expired)
  {
  }

  /** Inserting a document under a fresh id with fresh keys, a lower-case name and no token keeps the invariant. */
  lemma InsertKeepsInvariant(users: map<UserId, User>, signed: map<string, UserId>, id: UserId, u: User)
    requires IdsBelow(users, id) && UniqueKeys(users) && LowerCaseNames(users) && TokensSigned(users, signed)
    requires !KeyTaken(users, u.username, u.email) && Lower(u.username) == u.username && u.refreshToken.None?
    ensures var users' := users[id := u];
      IdsBelow(users', id + 1) && UniqueKeys(users') && LowerCaseNames(users') && TokensSigned(users', signed)
  {
  }

  /** `req.files?.avatar[0]?.path`: a TypeError when files came but no `avatar` field. */
  function AvatarPath(files: Files): (path: Result<Option<string>, Thrown>)
    ensures path.Err? <==> files.Files? && files.avatar.None?
    ensures path == Ok(None) <==> files.NoFiles? || files.avatar == Some([])
    ensures path.Ok? && path.value.Some? ==> files.Files? && files.avatar.Some? && path.value.value == files.avatar.value[0]
  {
    match files
    case NoFiles => Ok(None)
    case Files(avatar, _) =>
      if avatar.None? then Err(Uncaught)
      else if avatar.value == [] then Ok(None)
      else Ok(Some(avatar.value[0]))
  }

  /** A truthy local path: present and not empty. */
  predicate PathGiven(path: Option<string>) {
    path.Some? && path.value != ""
  }

  /** `coverImage?.url || ""` */
  function CoverUrl(upload: Upload): (url: string)
    ensures url == "" <==> upload.UploadFailed? || upload.url == ""
    ensures url != "" ==> upload == Uploaded(url)
  {
    if upload.Uploaded? then upload.url else ""
  }

  function ImageOf(u: User, field: ImageField): string {
    match field
    case Avatar => u.avatar
    case CoverImage => u.coverImage
  }

  function WithImage(u: User, field: ImageField, url: string): User {
    match field
    case Avatar => u.(avatar := url)
    case CoverImage => u.(coverImage := url)
  }

  const NoCookies: seq<Cookie> := []

  /** The user collection and the signer's record of refresh tokens, with the handlers as methods. */
  class UserController {
    var users: map<UserId, User>
    var nextId: nat                  // every stored id is below it; the next document gets it
    var signed: map<string, UserId>  // refresh tokens signed so far, with the id inside each

    ghost predicate Valid()
      reads this
    {
      IdsBelow(users, nextId) && UniqueKeys(users) && LowerCaseNames(users) && TokensSigned(users, signed)
    }

    constructor ()
      ensures Valid() && users == map[] && signed == map[] && nextId == 0
    {
      users, nextId, signed := map[], 0, map[];
    }

    /**
     * `generateAccessAndRefreshToken(userId)`: stores the new refresh token on
     * the user and returns the pair. `issued` is None when signing or saving
     * failed; every failure, a missing user included, becomes a 500.
     */
    method GenerateAccessAndRefreshToken(id: UserId, issued: Option<TokenPair>) returns (r: Result<TokenPair, Thrown>)
      requires Valid() && SignerAgrees(signed, issued, Some(id))
      modifies this
      ensures Valid() && nextId == old(nextId)
      ensures r.Ok? <==> id in old(users) && issued.Some?
      ensures r.Err? ==> r.error == ApiError(500) && users == old(users) && signed == old(signed)
      ensures r.Ok? ==>
        && r.value == issued.value
        && users == old(users)[id := old(users)[id].(refreshToken := Some(r.value.refreshToken))]
        && signed == old(signed)[r.value.refreshToken := id]
    {
      if id !in users || issued.None? {
        return Err(ApiError(500));
      }
      var user := users[id];
      var tokens := issued.value;
      match user.refreshToken {
        case Some(current) =>
          if current != tokens.refreshToken {
            RotationRevokes(users, signed, id, current, tokens.refreshToken, false);
          }
        case None =>
      }
      user := user.(refreshToken := Some(tokens.refreshToken));
      users := users[id := user];
      signed := signed[tokens.refreshToken := id];
      return Ok(tokens);
    }

    /**
     * `registerUser`. The checks run in order: blank field (400), existing
     * username or email (409), avatar path (400), avatar upload (400); the
     * document is created with the username lower-cased and the cover image
     * defaulting to "", and the response status is 201.
     */
    method RegisterUser(fullName: JsValue, email: JsValue, username: JsValue, password: JsValue,
                        files: Files, avatarUpload: Upload, coverUpload: Upload)
      returns (r: Result<Response, Thrown>)
      requires Valid()
      modifies this
      ensures Valid() && signed == old(signed)
      ensures r.Err? ==> users == old(users) && nextId == old(nextId)
      ensures RegisterCheck(fullName, email, username, password) == Blank ==> r == Err(ApiError(400))
      ensures RegisterCheck(fullName, email, username, password) == Throws ==> r == Err(Uncaught)
      ensures RegisterCheck(fullName, email, username, password) == Pass ==>
        if AnyMatch(old(users), username, email) then r == Err(ApiError(409))
        else if AvatarPath(files).Err? then r == Err(Uncaught)
        else if !PathGiven(AvatarPath(files).value) then r == Err(ApiError(400))
        else if avatarUpload.UploadFailed? then r == Err(ApiError(400))
        else if !(username.Str? && fullName.Str? && email.Str? && password.Str?) then r == Err(Uncaught)
        else if KeyTaken(old(users), Lower(username.s), email.s) then r == Err(Uncaught)
        else
          var u := User(Lower(username.s), email.s, fullName.s, password.s, avatarUpload.url, CoverUrl(coverUpload), None);
          && nextId == old(nextId) + 1
          && users == old(users)[old(nextId) := u]
          && r == Ok(Response(201, Profile(Some(View(old(nextId), u))), NoCookies))
    {
      var check := RegisterCheck(fullName, email, username, password);
      if check == Blank {
        return Err(ApiError(400));
      } else if check == Throws {
        return Err(Uncaught);  // `trim` is not a function
      }
      if AnyMatch(users, username, email) {
        return Err(ApiError(409));
      }
      var avatarLocalPath := AvatarPath(files);
      if avatarLocalPath.Err? {
        return Err(Uncaught);
      }
      if !PathGiven(avatarLocalPath.value) {
        return Err(ApiError(400));
      }
      // both uploads happen here; their answers are the parameters
      if avatarUpload.UploadFailed? {
        return Err(ApiError(400));
      }
      if !username.Str? {
        return Err(Uncaught);  // `toLowerCase` of undefined or null
      }
      var name := Lower(username.s);
      LowerIdempotent(username.s);
      if !(fullName.Str? && email.Str? && password.Str?) || KeyTaken(users, name, email.s) {
        return Err(Uncaught);  // `User.create` rejects a missing field or a duplicate key
      }
      var user := User(name, email.s, fullName.s, password.s, avatarUpload.url, CoverUrl(coverUpload), None);
      var id := nextId;
      InsertKeepsInvariant(users, signed, id, user);
      users := users[id := user];
      nextId := nextId + 1;
      r := Ok(Response(201, Profile(Some(View(id, user))), NoCookies));
    }

    /**
     * `loginUser`. The checks run in order: neither username nor email
     * (400), no matching user (404), wrong password (401); then the tokens are
     * issued (500 on failure) and set as two cookies, and the envelope holds
     * the user without password and refresh token, and both tokens.
     */
    method LoginUser(username: JsValue, email: JsValue, password: JsValue, issued: Option<TokenPair>)
      returns (r: Result<Response, Thrown>)
      requires Valid()
      requires SignerAgrees(signed, issued, FindOne(users, username, email, nextId))
      modifies this
      ensures Valid() && nextId == old(nextId)
      ensures r.Err? ==> users == old(users) && signed == old(signed)
      ensures var found := FindOne(old(users), username, email, old(nextId));
        if IdentifierMissing(username, email) then r == Err(ApiError(400))
        else if found.None? then r == Err(ApiError(404))
        else if !password.Str? then r == Err(Uncaught)
        else if password.s != old(users)[found.value].password then r == Err(ApiError(401))
        else if issued.None? then r == Err(ApiError(500))
        else
          var id, tokens := found.value, issued.value;
          var u := old(users)[id].(refreshToken := Some(tokens.refreshToken));
          && users == old(users)[id := u]
          && signed == old(signed)[tokens.refreshToken := id]
          && r == Ok(Response(200, Session(View(id, u), tokens.accessToken, tokens.refreshToken),
                              [SetCookie("accessToken", Str(tokens.accessToken)),
                               SetCookie("refreshToken", Str(tokens.refreshToken))]))
    {
      if IdentifierMissing(username, email) {
        return Err(ApiError(400));
      }
      var found := FindOne(users, username, email, nextId);
      if found.None? {
        return Err(ApiError(404));
      }
      var id := found.value;
      if !password.Str? {
        return Err(Uncaught);  // the hash comparison rejects a non-string
      }
      if password.s != users[id].password {
        return Err(ApiError(401));
      }
      var tokens := GenerateAccessAndRefreshToken(id, issued);
      if tokens.Err? {
        return Err(tokens.error);
      }
      var loggedInUser := View(id, users[id]);
      r := Ok(Response(200, Session(loggedInUser, tokens.value.accessToken, tokens.value.refreshToken),
                       [SetCookie("accessToken", Str(tokens.value.accessToken)),
                        SetCookie("refreshToken", Str(tokens.value.refreshToken))]));
    }

    /** `logoutUser`: clears the stored refresh token, changes nothing else, clears both cookies. */
    method LogoutUser(uid: UserId) returns (r: Response)
      requires Valid()
      modifies this
      ensures Valid() && nextId == old(nextId) && signed == old(signed)
      ensures uid in old(users) ==> users == old(users)[uid := old(users)[uid].(refreshToken := None)]
      ensures uid !in old(users) ==> users == old(users)
      ensures r == Response(200, NoData, [ClearCookie("accessToken"), ClearCookie("refreshToken")])
    {
      if uid in users {
        users := users[uid := users[uid].(refreshToken := None)];
      }
      r := Response(200, NoData, [ClearCookie("accessToken"), ClearCookie("refreshToken")]);
    }

    /**
     * `refreshAccessToken`. The presented token is the cookie, or else the body
     * field. Every failure is a 401: a missing token before the `try`, and
     * inside it a failed verification, an unknown user, a token other than the
     * stored one, and a failed issuance (its 500 is caught and rethrown). On
     * success the stored token is rotated, but the response carries no new
     * refresh token: the handler reads `newRefreshToken` from a result whose
     * field is `refreshToken`.
     */
    method RefreshAccessToken(cookieToken: JsValue, bodyToken: JsValue, expired: bool, issued: Option<TokenPair>)
      returns (r: Result<Response, Thrown>)
      requires Valid()
      requires SignerAgrees(signed, issued, Verified(signed, Or(cookieToken, bodyToken), expired))
      modifies this
      ensures Valid() && nextId == old(nextId)
      ensures r.Err? ==> r.error == ApiError(401) && users == old(users) && signed == old(signed)
      ensures r.Ok? <==> Accepts(old(users), old(signed), Or(cookieToken, bodyToken), expired) && issued.Some?
      ensures r.Ok? ==>
        var id, tokens := old(signed)[Or(cookieToken, bodyToken).s], issued.value;
        && users == old(users)[id := old(users)[id].(refreshToken := Some(tokens.refreshToken))]
        && signed == old(signed)[tokens.refreshToken := id]
        && r.value == Response(200, Renewed(tokens.accessToken, Undefined),
                               [SetCookie("accessToken", Str(tokens.accessToken)),
                                SetCookie("refreshToken", Undefined)])
    {
      var incoming := Or(cookieToken, bodyToken);
      if !Truthy(incoming) {
        return Err(ApiError(401));
      }
      var decoded := Verified(signed, incoming, expired);
      if decoded.None? {
        return Err(ApiError(401));
      }
      var id := decoded.value;
      if id !in users {
        return Err(ApiError(401));  // `ApiError(...)` without `new` throws a TypeError, caught all the same
      }
      if users[id].refreshToken != Some(incoming.s) {
        return Err(ApiError(401));
      }
      var tokens := GenerateAccessAndRefreshToken(id, issued);
      if tokens.Err? {
        return Err(ApiError(401));
      }
      var newRefreshToken := Undefined;
      r := Ok(Response(200, Renewed(tokens.value.accessToken, newRefreshToken),
                       [SetCookie("accessToken", Str(tokens.value.accessToken)),
                        SetCookie("refreshToken", newRefreshToken)]));
    }

    /**
     * `changeCurrentPassword`: a wrong old password is a 400; otherwise only
     * the password changes (the refresh token stays).
     */
    method ChangeCurrentPassword(uid: UserId, oldPassword: JsValue, newPassword: JsValue)
      returns (r: Result<Response, Thrown>)
      requires Valid()
      modifies this
      ensures Valid() && nextId == old(nextId) && signed == old(signed)
      ensures r.Err? ==> users == old(users)
      ensures
        if uid !in old(users) || !oldPassword.Str? then r == Err(Uncaught)
        else if oldPassword.s != old(users)[uid].password then r == Err(ApiError(400))
        else if !newPassword.Str? then r == Err(Uncaught)
        else (r == Ok(Response(200, NoData, NoCookies)) &&
              users == old(users)[uid := old(users)[uid].(password := newPassword.s)])
    {
      if uid !in users || !oldPassword.Str? {
        return Err(Uncaught);
      }
      if oldPassword.s != users[uid].password {
        return Err(ApiError(400));
      }
      if !newPassword.Str? {
        return Err(Uncaught);  // hashing the new password on save fails
      }
      users := users[uid := users[uid].(password := newPassword.s)];
      r := Ok(Response(200, NoData, NoCookies));
    }

    /**
     * `updateUserDetails`: a falsy full name or email is a 400; otherwise
     * only those two fields change, and the response holds the updated user
     * (null when there is no such user).
     */
    method UpdateUserDetails(uid: UserId, fullName: JsValue, email: JsValue) returns (r: Result<Response, Thrown>)
      requires Valid()
      modifies this
      ensures Valid() && nextId == old(nextId) && signed == old(signed)
      ensures r.Err? ==> users == old(users)
      ensures
        if DetailsMissing(fullName, email) then r == Err(ApiError(400))
        else if !fullName.Str? || !email.Str? then r == Err(Uncaught)
        else if uid !in old(users) then r == Ok(Response(200, Profile(None), NoCookies)) && users == old(users)
        else if EmailTakenByOther(old(users), uid, email.s) then r == Err(Uncaught)
        else
          var u := old(users)[uid].(fullName := fullName.s, email := email.s);
          users == old(users)[uid := u] && r == Ok(Response(200, Profile(Some(View(uid, u))), NoCookies))
    {
      if DetailsMissing(fullName, email) {
        return Err(ApiError(400));
      }
      if !fullName.Str? || !email.Str? {
        return Err(Uncaught);  // a string field cannot hold it
      }
      if uid !in users {
        return Ok(Response(200, Profile(None), NoCookies));
      }
      if EmailTakenByOther(users, uid, email.s) {
        return Err(Uncaught);  // duplicate key
      }
      var user := users[uid].(fullName := fullName.s, email := email.s);
      users := users[uid := user];
      r := Ok(Response(200, Profile(Some(View(uid, user))), NoCookies));
    }

    /**
     * `updateAvatar` and `updateCoverImage`: upload the new file, store its
     * URL, then delete the old file under the id derived from the old URL
     * (`publicId`, None for `undefined`). A failed delete is a 400 although
     * the new URL is already stored.
     */
    method UpdateImage(field: ImageField, uid: UserId, localPath: Option<string>, upload: Upload, deleted: bool)
      returns (r: Result<Response, Thrown>, publicId: Option<string>)
      requires Valid()
      modifies this
      ensures Valid() && nextId == old(nextId) && signed == old(signed)
      ensures
        if !PathGiven(localPath) then r == Err(ApiError(400)) && users == old(users) && publicId.None?
        else if upload.UploadFailed? then r == Err(Uncaught) && users == old(users) && publicId.None?
        else if upload.url == "" then r == Err(ApiError(400)) && users == old(users) && publicId.None?
        else
          var oldUrl := if uid in old(users) then Some(ImageOf(old(users)[uid], field)) else None;
          && users == (if uid in old(users) then old(users)[uid := WithImage(old(users)[uid], field, upload.url)]
                       else old(users))
          && publicId == OldImageId(oldUrl)
          && r == if deleted then Ok(Response(200, Profile(if uid in users then Some(View(uid, users[uid])) else None), NoCookies))
                  else Err(ApiError(400))
    {
      publicId := None;
      if !PathGiven(localPath) {
        r := Err(ApiError(400));
        return;
      }
      if upload.UploadFailed? {
        r := Err(Uncaught);  // `.url` of null
        return;
      }
      if upload.url == "" {
        r := Err(ApiError(400));
        return;
      }
      var oldUrl := None;
      var updated := None;
      if uid in users {
        oldUrl := Some(ImageOf(users[uid], field));
        users := users[uid := WithImage(users[uid], field, upload.url)];
        updated := Some(View(uid, users[uid]));
      }
      if oldUrl.Some? && oldUrl.value != "" {
        publicId := Some(PublicId(oldUrl.value));
      }
      if !deleted {
        r := Err(ApiError(400));
        return;
      }
      r := Ok(Response(200, Profile(updated), NoCookies));
    }
  }
}
