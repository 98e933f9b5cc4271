/** `TokenService`: issuing, verifying, refreshing and revoking bearer tokens
    over a membership/user directory and a store of revoked raw tokens. Every
    operation is a fail-fast chain of named errors; the clock, the fresh token
    id and the password hash function are parameters. */
module TokenService {
  import opened Results
  import opened Jwt

  /** A tenant: access and refresh lifetimes (seconds), crypto settings and the
      error list of its own validity self-check (`Membership.IsValid`). */
  datatype Membership = Membership(id: string, expiresIn: int, refreshTokenExpiresIn: int,
                                   settings: CryptoSettings, validationErrors: seq<string>)

  predicate IsValid(m: Membership) {
    |m.validationErrors| == 0
  }

  datatype User = User(id: string, membershipId: string, username: string, emailAddress: string, passwordHash: string)

  /** The membership and user services, as data. */
  datatype Directory = Directory(memberships: map<string, Membership>, users: seq<User>)

  /** `HashProvider.Hash(password, algorithm, encoding)`, an external function. */
  type PasswordHasher = (string, CryptoSettings) -> string

  datatype BearerToken = BearerToken(accessToken: RawToken, expiresIn: int, refreshToken: RawToken, refreshExpiresIn: int)

  datatype TokenValidationResult =
    TokenValidationResult(isValidated: bool, token: RawToken, user: User, remaining: int, isRefreshToken: bool)

  datatype RevokedTokenRecord = RevokedTokenRecord(token: RawToken, revokedAt: int, userId: string)

  /** The revoked-tokens repository, keyed by the raw token it records. */
  type RevocationStore = map<RawToken, RevokedTokenRecord>

  datatype EventType = TokenGenerated | TokenVerified | TokenRefreshed | TokenRevoked

  /** What an operation did, in order: a pair minted, a revocation record
      inserted, an event fired for a user. */
  datatype Effect = Minted(pair: BearerToken) | Inserted(record: RevokedTokenRecord) | Fired(event: EventType, userId: string)

  datatype AuthError =
    | MembershipNotFound(membershipId: string)
    | MalformedMembership(membershipId: string, errors: seq<string>)
    | UserNotFound(key: string, field: string)
    | UsernameOrPasswordIsWrong(username: string, password: string)
    | InvalidToken
    | TokenWasExpired
    | TokenWasRevoked
    | RefreshTokenWasExpired
    | RefreshTokenWasRevoked
    | TokenIsNotRefreshable

  /** The outcome of an operation that leaves the revocation store alone. */
  datatype Reply<T> = Reply(trace: seq<Effect>, result: Result<T, AuthError>)

  /** The outcome of an operation that may insert revocation records; the store
      is returned on failure too, since an insert is not undone by a later error. */
  datatype Transition<T> = Transition(store: RevocationStore, trace: seq<Effect>, result: Result<T, AuthError>)

  /** `membershipService.GetAsync(id)`: the membership stored under that id, if any. */
  function GetMembership(dir: Directory, id: string): (m: Option<Membership>)
    ensures m.Some? <==> id in dir.memberships
    ensures m.Some? ==> m.value == dir.memberships[id]
  {
    if id in dir.memberships then Some(dir.memberships[id]) else None
  }

  /** `userService.GetByUsernameOrEmailAsync(username, email, membershipId)`: the
      first user of the membership whose username or email address matches. */
  function GetByUsernameOrEmail(users: seq<User>, username: string, email: string, membershipId: string): (u: Option<User>)
    ensures u.Some? ==> u.value in users && u.value.membershipId == membershipId
                        && (u.value.username == username || u.value.emailAddress == email)
    ensures u.None? ==> forall i :: 0 <= i < |users| ==>
      users[i].membershipId != membershipId || (users[i].username != username && users[i].emailAddress != email)
  {
    if |users| == 0 then None
    else if users[0].membershipId == membershipId && (users[0].username == username || users[0].emailAddress == email) then
      Some(users[0])
    else GetByUsernameOrEmail(users[1..], username, email, membershipId)
  }

  /** `userService.GetAsync(membershipId, userId)`: the first user with that id in the membership. */
  function GetUser(users: seq<User>, membershipId: string, userId: string): (u: Option<User>)
    ensures u.Some? ==> u.value in users && u.value.membershipId == membershipId && u.value.id == userId
    ensures u.None? ==> forall i :: 0 <= i < |users| ==> users[i].membershipId != membershipId || users[i].id != userId
  {
    if |users| == 0 then None
    else if users[0].membershipId == membershipId && users[0].id == userId then Some(users[0])
    else GetUser(users[1..], membershipId, userId)
  }

  /** `new TokenClaims(tokenId, user, membership)`. */
  function NewTokenClaims(tokenId: string, user: User, m: Membership): TokenClaims {
    TokenClaims(tokenId, user.id, m.id, m.expiresIn, [])
  }

  /** Whether a raw token decodes and carries a true refresh claim. */
  predicate IsRefreshTyped(t: RawToken) {
    Decode(t).Some? && IsRefreshToken(Decode(t).value)
  }

  /** `GenerateBearerToken`: an access token and a refresh token signed from the
      same claims, the refresh one with the refresh claim added. */
  function GenerateBearerToken(user: User, m: Membership, tokenId: string, now: int): (pair: BearerToken)
    ensures Decode(pair.accessToken).Some? && Decode(pair.refreshToken).Some?
    ensures var access, refresh := Decode(pair.accessToken).value, Decode(pair.refreshToken).value;
      && refresh.claims == access.claims + [Claim(RefreshTokenClaim, TrueText)]
      && access.issuedAt == refresh.issuedAt == now
      && access.validTo == refresh.validTo == now + m.expiresIn
      && FindClaim(access.claims, JtiClaim) == Some(tokenId)
      && FindClaim(access.claims, SubClaim) == Some(user.id)
      && FindClaim(access.claims, PrnClaim) == Some(m.id)
      && !IsRefreshToken(access) && IsRefreshToken(refresh)
    ensures pair.expiresIn == m.expiresIn && pair.refreshExpiresIn == m.refreshTokenExpiresIn
    ensures pair.accessToken != pair.refreshToken
  {
    var claims := NewTokenClaims(tokenId, user, m);
    DecodeSign(claims, now, m.settings);
    SignedPair(claims, now, m.settings);
    BearerToken(Sign(claims, now, m.settings), claims.expiresIn,
                Sign(AddClaim(claims, RefreshTokenClaim, TrueText), now, m.settings), m.refreshTokenExpiresIn)
  }

  /** `GenerateTokenAsync`: membership present and valid, then the user, then
      the password; only then is a pair minted. */
  function Generate(dir: Directory, hash: PasswordHasher, username: string, password: string, membershipId: string,
                    tokenId: string, now: int, fireEvent: bool := true): (r: Reply<BearerToken>)
    ensures r.result.Err? ==> r.trace == []
    ensures GetMembership(dir, membershipId).None? ==> r.result == Err(MembershipNotFound(membershipId))
    ensures GetMembership(dir, membershipId).Some? && !IsValid(dir.memberships[membershipId]) ==>
      r.result == Err(MalformedMembership(membershipId, dir.memberships[membershipId].validationErrors))
    ensures GetMembership(dir, membershipId).Some? && IsValid(dir.memberships[membershipId])
            && GetByUsernameOrEmail(dir.users, username, username, dir.memberships[membershipId].id).None? ==>
      r.result == Err(UserNotFound(username, "username or email"))
    ensures GetMembership(dir, membershipId).Some? && IsValid(dir.memberships[membershipId])
            && GetByUsernameOrEmail(dir.users, username, username, dir.memberships[membershipId].id).Some?
            && hash(password, dir.memberships[membershipId].settings)
               != GetByUsernameOrEmail(dir.users, username, username, dir.memberships[membershipId].id).value.passwordHash ==>
      r.result == Err(UsernameOrPasswordIsWrong(username, password))
    ensures r.result.Ok? <==>
      && membershipId in dir.memberships
      && var m := dir.memberships[membershipId];
      && IsValid(m)
      && GetByUsernameOrEmail(dir.users, username, username, m.id).Some?
      && hash(password, m.settings) == GetByUsernameOrEmail(dir.users, username, username, m.id).value.passwordHash
    ensures r.result.Ok? ==>
      var m := dir.memberships[membershipId];
      var user := GetByUsernameOrEmail(dir.users, username, username, m.id).value;
      && r.result.value == GenerateBearerToken(user, m, tokenId, now)
      && r.trace == [Minted(r.result.value)] + (if fireEvent then [Fired(TokenGenerated, user.id)] else [])
  {
    match GetMembership(dir, membershipId)
    case None => Reply([], Err(MembershipNotFound(membershipId)))
    case Some(m) =>
      if !IsValid(m) then Reply([], Err(MalformedMembership(membershipId, m.validationErrors)))
      else
        match GetByUsernameOrEmail(dir.users, username, username, m.id)
        case None => Reply([], Err(UserNotFound(username, "username or email")))
        case Some(user) =>
          if hash(password, m.settings) != user.passwordHash then Reply([], Err(UsernameOrPasswordIsWrong(username, password)))
          else
            var pair := GenerateBearerToken(user, m, tokenId, now);
            Reply([Minted(pair)] + (if fireEvent then [Fired(TokenGenerated, user.id)] else []), Ok(pair))
  }

  /** `TryExtractClaimValue` followed by the `IsNullOrEmpty` test the service applies. */
  function NonEmptyClaim(p: Payload, kind: string): (v: Option<string>)
    ensures v.Some? <==> FindClaim(p.claims, kind).Some? && FindClaim(p.claims, kind).value != ""
    ensures v.Some? ==> v.value == FindClaim(p.claims, kind).value
  {
    match FindClaim(p.claims, kind)
    case Some(value) => if value == "" then None else Some(value)
    case None => None
  }

  /** `VerifyTokenAsync`: revoked, then undecodable, then expired (the expiry
      instant itself still passes), then missing claims, then unknown user. */
  function Verify(dir: Directory, store: RevocationStore, token: RawToken, now: int, fireEvent: bool := true)
    : (r: Reply<TokenValidationResult>)
    ensures token in store ==> r.result == Err(TokenWasRevoked)
    ensures token !in store && Decode(token).None? ==> r.result == Err(InvalidToken)
    ensures token !in store && Decode(token).Some? && now > Decode(token).value.validTo ==> r.result == Err(TokenWasExpired)
    ensures token !in store && Decode(token).Some? && now <= Decode(token).value.validTo
            && (NonEmptyClaim(Decode(token).value, PrnClaim).None? || NonEmptyClaim(Decode(token).value, SubClaim).None?)
            ==> r.result == Err(InvalidToken)
    ensures token !in store && Decode(token).Some? && now <= Decode(token).value.validTo
            && NonEmptyClaim(Decode(token).value, PrnClaim).Some? && NonEmptyClaim(Decode(token).value, SubClaim).Some?
            && GetUser(dir.users, NonEmptyClaim(Decode(token).value, PrnClaim).value,
                       NonEmptyClaim(Decode(token).value, SubClaim).value).None?
            ==> r.result == Err(UserNotFound(NonEmptyClaim(Decode(token).value, SubClaim).value, "_id"))
    ensures r.result.Err? ==> r.trace == []
    ensures r.result.Err? ==> r.result.error in {TokenWasRevoked, InvalidToken, TokenWasExpired} || r.result.error.UserNotFound?
    ensures r.result.Ok? ==>
      && token !in store && Decode(token).Some?
      && var p, v := Decode(token).value, r.result.value;
      && now <= p.validTo
      && v.isValidated && v.token == token
      && Some(v.user.id) == FindClaim(p.claims, SubClaim) && v.user.id != ""
      && Some(v.user.membershipId) == FindClaim(p.claims, PrnClaim) && v.user.membershipId != ""
      && v.user in dir.users
      && v.remaining == p.validTo - now >= 0
      && (v.isRefreshToken <==> IsRefreshToken(p))
      && r.trace == (if fireEvent then [Fired(TokenVerified, v.user.id)] else [])
  {
    if token in store then Reply([], Err(TokenWasRevoked))
    else
      match Decode(token)
      case None => Reply([], Err(InvalidToken))
      case Some(p) =>
        if !(now <= p.validTo) then Reply([], Err(TokenWasExpired))
        else
          match NonEmptyClaim(p, PrnClaim)
          case None => Reply([], Err(InvalidToken))
          case Some(membershipId) =>
            match NonEmptyClaim(p, SubClaim)
            case None => Reply([], Err(InvalidToken))
            case Some(userId) =>
              match GetUser(dir.users, membershipId, userId)
              case None => Reply([], Err(UserNotFound(userId, "_id")))
              case Some(user) =>
                Reply(if fireEvent then [Fired(TokenVerified, user.id)] else [],
                      Ok(TokenValidationResult(true, token, user, p.validTo - now, IsRefreshToken(p))))
  }

  /** `StimulateRefreshToken`: re-sign the token's own id and issue instant,
      for this user and membership, with the refresh claim added. */
  function StimulateRefreshToken(token: RawToken, user: User, m: Membership): (sibling: Option<RawToken>)
    ensures sibling.Some? ==> IsRefreshTyped(sibling.value)
    ensures sibling.Some? <==> Decode(token).Some? && FindClaim(Decode(token).value.claims, JtiClaim).Some?
    ensures sibling.Some? ==>
      var p, q := Decode(token).value, Decode(sibling.value).value;
      && FindClaim(q.claims, JtiClaim) == FindClaim(p.claims, JtiClaim)
      && FindClaim(q.claims, SubClaim) == Some(user.id)
      && FindClaim(q.claims, PrnClaim) == Some(m.id)
      && q.issuedAt == p.issuedAt
  {
    match Decode(token)
    case None => None
    case Some(p) =>
      match FindClaim(p.claims, JtiClaim)
      case None => None
      case Some(tokenId) =>
        var claims := AddClaim(NewTokenClaims(tokenId, user, m), RefreshTokenClaim, TrueText);
        RefreshClaimDecidesType(NewTokenClaims(tokenId, user, m), p.issuedAt);
        DecodeSign(claims, p.issuedAt, m.settings);
        Some(Sign(claims, p.issuedAt, m.settings))
  }

  /** 0 for a refresh token, 1 otherwise: the sibling revoke goes one level at most. */
  function RevokeDepth(t: RawToken): nat {
    if IsRefreshTyped(t) then 0 else 1
  }

  /** The token whose revocation must follow: none for a refresh token, else
      the derived sibling refresh token, when one can be derived. */
  function SiblingToRevoke(token: RawToken, user: User, m: Membership): (sibling: Option<RawToken>)
    ensures sibling.Some? ==> IsRefreshTyped(sibling.value) && !IsRefreshTyped(token)
    ensures !IsRefreshTyped(token) ==> sibling == StimulateRefreshToken(token, user, m)
    ensures sibling.Some? ==> RevokeDepth(sibling.value) < RevokeDepth(token)
  {
    if IsRefreshTyped(token) then None else StimulateRefreshToken(token, user, m)
  }

  /** `later` still holds every record of `earlier`, unchanged. */
  predicate Keeps(earlier: RevocationStore, later: RevocationStore) {
    earlier.Keys <= later.Keys && forall t | t in earlier :: later[t] == earlier[t]
  }

  lemma KeepsInsert(store: RevocationStore, token: RawToken, record: RevokedTokenRecord)
    requires token !in store
    ensures Keeps(store, store[token := record])
  {
  }

  lemma KeepsTransitive(a: RevocationStore, b: RevocationStore, c: RevocationStore)
    requires Keeps(a, b) && Keeps(b, c)
    ensures Keeps(a, c)
  {
  }

  /** The store after a record is inserted and the user that record names. */
  datatype Recorded = Recorded(store: RevocationStore, record: RevokedTokenRecord, user: User)

  /** The first two steps of `RevokeTokenAsync`: verify without an event, then
      insert a record of the raw token, the instant and the owning user. */
  function RecordRevocation(dir: Directory, store: RevocationStore, token: RawToken, now: int)
    : (r: Result<Recorded, AuthError>)
    ensures Verify(dir, store, token, now, false).result.Err? ==> r == Err(Verify(dir, store, token, now, false).result.error)
    ensures r.Ok? <==> Verify(dir, store, token, now, false).result.Ok?
    ensures r.Ok? ==>
      && r.value.user == Verify(dir, store, token, now, false).result.value.user
      && token !in store
      && r.value.record == RevokedTokenRecord(token, now, r.value.user.id)
      && r.value.store == store[token := r.value.record]
  {
    var verified := Verify(dir, store, token, now, false);
    match verified.result
    case Err(e) => Err(e)
    case Ok(v) =>
      if !v.isValidated then Err(InvalidToken)
      else
        var record := RevokedTokenRecord(token, now, v.user.id);
        Ok(Recorded(store[token := record], record, v.user))
  }

  /** `RevokeTokenAsync`: verify (no event), insert the record, re-resolve the
      membership, and for a token that is not a refresh token also revoke its
      derived sibling refresh token. `TokenRevoked` is fired whatever
      `fireEvent` says. */
  function Revoke(dir: Directory, store: RevocationStore, token: RawToken, now: int, fireEvent: bool := true)
    : (r: Transition<bool>)
    ensures Keeps(store, r.store)
    ensures r.result.Ok? ==> token in r.store && r.result.value
    decreases RevokeDepth(token)
  {
    match RecordRevocation(dir, store, token, now)
    case Err(e) => Transition(store, [], Err(e))
    case Ok(recorded) =>
      KeepsInsert(store, token, recorded.record);
      var user := recorded.user;
      match GetMembership(dir, user.membershipId)
      case None => Transition(recorded.store, [Inserted(recorded.record)], Err(MembershipNotFound(user.membershipId)))
      case Some(m) =>
        match SiblingToRevoke(token, user, m)
        case None => Transition(recorded.store, [Inserted(recorded.record), Fired(TokenRevoked, user.id)], Ok(true))
        case Some(refresh) =>
          var inner := Revoke(dir, recorded.store, refresh, now, false);
          KeepsTransitive(store, recorded.store, inner.store);
          if inner.result.Err? then Transition(inner.store, [Inserted(recorded.record)] + inner.trace, Err(inner.result.error))
          else Transition(inner.store, [Inserted(recorded.record)] + inner.trace + [Fired(TokenRevoked, user.id)], Ok(true))
  }

  /** What a refresh token that passed every check resolves to. */
  datatype Grant = Grant(payload: Payload, membership: Membership, user: User)

  /** The checks of `RefreshTokenAsync` before anything is minted: revoked,
      undecodable, not refresh-typed, expired (the expiry instant itself still
      passes), then the membership claim, the membership, the subject claim
      and the user. */
  function AdmitRefresh(dir: Directory, store: RevocationStore, refreshToken: RawToken, now: int)
    : (r: Result<Grant, AuthError>)
    ensures refreshToken in store ==> r == Err(RefreshTokenWasRevoked)
    ensures refreshToken !in store && Decode(refreshToken).None? ==> r == Err(InvalidToken)
    ensures refreshToken !in store && Decode(refreshToken).Some? && !IsRefreshToken(Decode(refreshToken).value) ==>
      r == Err(TokenIsNotRefreshable)
    ensures refreshToken !in store && IsRefreshTyped(refreshToken) && now > Decode(refreshToken).value.validTo ==>
      r == Err(RefreshTokenWasExpired)
    ensures refreshToken !in store && IsRefreshTyped(refreshToken) && now <= Decode(refreshToken).value.validTo ==>
      var p := Decode(refreshToken).value;
      var prn, sub := NonEmptyClaim(p, PrnClaim), NonEmptyClaim(p, SubClaim);
      var m := if prn.Some? then GetMembership(dir, prn.value) else None;
      var user := if prn.Some? && sub.Some? then GetUser(dir.users, prn.value, sub.value) else None;
      && (prn.None? ==> r == Err(InvalidToken))
      && (prn.Some? && m.None? ==> r == Err(MembershipNotFound(prn.value)))
      && (prn.Some? && m.Some? && sub.None? ==> r == Err(InvalidToken))
      && (prn.Some? && m.Some? && sub.Some? && user.None? ==> r == Err(UserNotFound(sub.value, "_id")))
      && (prn.Some? && m.Some? && sub.Some? && user.Some? ==> r == Ok(Grant(p, m.value, user.value)))
    ensures r.Ok? ==>
      && refreshToken !in store
      && Decode(refreshToken) == Some(r.value.payload)
      && IsRefreshToken(r.value.payload)
      && now <= r.value.payload.validTo
      && NonEmptyClaim(r.value.payload, PrnClaim) == Some(r.value.user.membershipId)
      && NonEmptyClaim(r.value.payload, SubClaim) == Some(r.value.user.id)
      && r.value.user in dir.users
      && GetMembership(dir, r.value.user.membershipId) == Some(r.value.membership)
  {
    if refreshToken in store then Err(RefreshTokenWasRevoked)
    else
      match Decode(refreshToken)
      case None => Err(InvalidToken)
      case Some(p) =>
        if !IsRefreshToken(p) then Err(TokenIsNotRefreshable)
        else if !(now <= p.validTo) then Err(RefreshTokenWasExpired)
        else
          match NonEmptyClaim(p, PrnClaim)
          case None => Err(InvalidToken)
          case Some(membershipId) =>
            match GetMembership(dir, membershipId)
            case None => Err(MembershipNotFound(membershipId))
            case Some(m) =>
              match NonEmptyClaim(p, SubClaim)
              case None => Err(InvalidToken)
              case Some(userId) =>
                match GetUser(dir.users, membershipId, userId)
                case None => Err(UserNotFound(userId, "_id"))
                case Some(user) => Ok(Grant(p, m, user))
  }

  /** `RefreshTokenAsync`: once the presented refresh token is admitted, a new
      pair is minted for its user and membership, and only then (when
      `revokeBefore`) is the presented token revoked; a failing revoke still
      leaves its inserts behind. */
  function Refresh(dir: Directory, store: RevocationStore, refreshToken: RawToken, tokenId: string, now: int,
                   revokeBefore: bool := true, fireEvent: bool := true): (r: Transition<BearerToken>)
    ensures AdmitRefresh(dir, store, refreshToken, now).Err? ==>
      r == Transition(store, [], Err(AdmitRefresh(dir, store, refreshToken, now).error))
    ensures Keeps(store, r.store)
    ensures !revokeBefore ==> r.store == store
    ensures r.result.Ok? ==>
      && AdmitRefresh(dir, store, refreshToken, now).Ok?
      && var g := AdmitRefresh(dir, store, refreshToken, now).value;
      && r.result.value == GenerateBearerToken(g.user, g.membership, tokenId, now)
      && |r.trace| > 0 && r.trace[0] == Minted(r.result.value)
      && (revokeBefore ==> refreshToken in r.store)
  {
    match AdmitRefresh(dir, store, refreshToken, now)
    case Err(e) => Transition(store, [], Err(e))
    case Ok(g) => Reissue(dir, store, refreshToken, g.user, GenerateBearerToken(g.user, g.membership, tokenId, now),
                          now, revokeBefore, fireEvent)
  }

  /** What `RefreshTokenAsync` does once the presented token is admitted and
      the new pair minted: revoke the presented token when asked, then fire
      `TokenRefreshed` when asked. */
  function Reissue(dir: Directory, store: RevocationStore, refreshToken: RawToken, user: User, pair: BearerToken,
                   now: int, revokeBefore: bool, fireEvent: bool): (r: Transition<BearerToken>)
    ensures Keeps(store, r.store)
    ensures !revokeBefore ==> r.store == store
    ensures r.result.Ok? ==> r.result.value == pair && (revokeBefore ==> refreshToken in r.store)
    ensures r.result.Err? ==> revokeBefore && Revoke(dir, store, refreshToken, now).result.Err?
    ensures |r.trace| > 0 && r.trace[0] == Minted(pair)
  {
    var revoked := if revokeBefore then Revoke(dir, store, refreshToken, now) else Transition(store, [], Ok(true));
    if revoked.result.Err? then
      Transition(revoked.store, [Minted(pair)] + revoked.trace, Err(revoked.result.error))
    else
      Transition(revoked.store, [Minted(pair)] + revoked.trace + (if fireEvent then [Fired(TokenRefreshed, user.id)] else []),
                 Ok(pair))
  }

}
