/** Properties that relate several `TokenService` operations: what a revoke
    inserts, that a revoked token stays rejected, that a freshly minted pair
    verifies and refreshes, that revoking an access token also revokes its
    refresh token, where the expiry boundary lies, and in which order a
    refresh mints and revokes. */
module TokenLifecycle {
  import opened Results
  import opened Jwt
  import opened TokenService

  /** A user the directory resolves by id, with the non-empty ids a token's
      subject and membership claims must carry. */
  predicate Resolvable(dir: Directory, user: User, m: Membership) {
    user in dir.users && user.membershipId == m.id && user.id != "" && m.id != ""
  }

  /** A membership stored under its own id. */
  predicate Registered(dir: Directory, m: Membership) {
    m.id in dir.memberships && dir.memberships[m.id] == m
  }

  /** The record a successful revoke inserts for a token of that user. */
  function RecordFor(token: RawToken, now: int, user: User): RevokedTokenRecord {
    RevokedTokenRecord(token, now, user.id)
  }

  lemma GetUserFinds(users: seq<User>, user: User)
    requires user in users
    ensures GetUser(users, user.membershipId, user.id).Some?
  {
    var i :| 0 <= i < |users| && users[i] == user;
  }

  // ---------------------------------------------------------------------------
  // Revoke and the revocation store
  // ---------------------------------------------------------------------------

  /** A revoke that cannot verify its token fails with the verifier's own
      error and leaves the store and the trace untouched. */
  lemma RevokeFailsLikeVerify(dir: Directory, store: RevocationStore, token: RawToken, now: int, fireEvent: bool)
    requires Verify(dir, store, token, now, false).result.Err?
    ensures Revoke(dir, store, token, now, fireEvent)
            == Transition(store, [], Err(Verify(dir, store, token, now, false).result.error))
  {
  }

  /** A revoke whose token verifies records it, with the instant and the
      owning user, whatever happens after the insert. */
  lemma RevokeRecordsVerifiedToken(dir: Directory, store: RevocationStore, token: RawToken, now: int, fireEvent: bool)
    requires Verify(dir, store, token, now, false).result.Ok?
    ensures var r := Revoke(dir, store, token, now, fireEvent);
      && token in r.store
      && r.store[token] == RecordFor(token, now, Verify(dir, store, token, now, false).result.value.user)
  {
    var recorded := RecordRevocation(dir, store, token, now).value;
    assert token in recorded.store;
    match GetMembership(dir, recorded.user.membershipId)
    case None =>
    case Some(m) =>
      match SiblingToRevoke(token, recorded.user, m)
      case None =>
      case Some(refresh) =>
        assert Keeps(recorded.store, Revoke(dir, recorded.store, refresh, now, false).store);
  }

  /** Revoking a refresh token records nothing but that token: it has no
      sibling to revoke. */
  lemma RevokeRefreshTokenAddsOnlyItself(dir: Directory, store: RevocationStore, token: RawToken, now: int,
                                         fireEvent: bool)
    requires IsRefreshTyped(token)
    ensures Revoke(dir, store, token, now, fireEvent).store.Keys <= store.Keys + {token}
  {
    assert forall user, m :: SiblingToRevoke(token, user, m).None?;
  }

  /** A verified token whose owner's membership has gone is still recorded;
      the revoke then fails with `MembershipNotFound` and fires nothing. */
  lemma RevokeMembershipMissing(dir: Directory, store: RevocationStore, token: RawToken, now: int, fireEvent: bool)
    requires Verify(dir, store, token, now, false).result.Ok?
    requires Verify(dir, store, token, now, false).result.value.user.membershipId !in dir.memberships
    ensures var owner := Verify(dir, store, token, now, false).result.value.user;
            var record := RecordFor(token, now, owner);
      Revoke(dir, store, token, now, fireEvent)
        == Transition(store[token := record], [Inserted(record)], Err(MembershipNotFound(owner.membershipId)))
  {
  }

  /** A successful revoke of a refresh token inserts its record and fires
      `TokenRevoked` once, for its owner. */
  lemma RevokeRefreshTokenTrace(dir: Directory, store: RevocationStore, token: RawToken, now: int, fireEvent: bool)
    requires IsRefreshTyped(token)
    requires Revoke(dir, store, token, now, fireEvent).result.Ok?
    ensures && Verify(dir, store, token, now, false).result.Ok?
            && var owner := Verify(dir, store, token, now, false).result.value.user;
            && Revoke(dir, store, token, now, fireEvent).trace
                 == [Inserted(RecordFor(token, now, owner)), Fired(TokenRevoked, owner.id)]
  {
    var recorded := RecordRevocation(dir, store, token, now);
    assert recorded.Ok?;
    var m := GetMembership(dir, recorded.value.user.membershipId);
    assert m.Some?;
    assert SiblingToRevoke(token, recorded.value.user, m.value).None?;
  }

  /** What a revoke does once its token is recorded, its owner's membership
      found and a sibling derived: revoke the sibling, then fire
      `TokenRevoked` for the owner. */
  lemma RevokeWithSibling(dir: Directory, store: RevocationStore, token: RawToken, now: int, fireEvent: bool,
                          sibling: RawToken)
    requires RecordRevocation(dir, store, token, now).Ok?
    requires var owner := RecordRevocation(dir, store, token, now).value.user;
      && owner.membershipId in dir.memberships
      && SiblingToRevoke(token, owner, dir.memberships[owner.membershipId]) == Some(sibling)
    ensures var recorded := RecordRevocation(dir, store, token, now).value;
            var inner := Revoke(dir, recorded.store, sibling, now, false);
            var r := Revoke(dir, store, token, now, fireEvent);
      && (inner.result.Err? ==> r.result.Err?)
      && (inner.result.Ok? ==>
            r == Transition(inner.store, [Inserted(recorded.record)] + inner.trace + [Fired(TokenRevoked, recorded.user.id)],
                            Ok(true)))
  {
  }

  /** A successful revoke of a token that is not a refresh token resolves its
      owner's membership and, when a sibling refresh token can be derived for
      it, records that sibling too. */
  lemma RevokeRevokesSibling(dir: Directory, store: RevocationStore, token: RawToken, now: int, fireEvent: bool)
    requires !IsRefreshTyped(token)
    requires Revoke(dir, store, token, now, fireEvent).result.Ok?
    ensures && Verify(dir, store, token, now, false).result.Ok?
            && var owner := Verify(dir, store, token, now, false).result.value.user;
            && owner.membershipId in dir.memberships
            && var sibling := StimulateRefreshToken(token, owner, dir.memberships[owner.membershipId]);
            && (sibling.Some? ==> sibling.value in Revoke(dir, store, token, now, fireEvent).store)
  {
    var recorded := RecordRevocation(dir, store, token, now);
    assert recorded.Ok?;
    var owner := recorded.value.user;
    assert GetMembership(dir, owner.membershipId).Some?;
    var m := dir.memberships[owner.membershipId];
    var sibling := StimulateRefreshToken(token, owner, m);
    if sibling.Some? {
      RevokeWithSibling(dir, store, token, now, fireEvent, sibling.value);
    }
  }

  /** The events of a successful revoke of a token that is not a refresh
      token: with a sibling, both records are inserted and `TokenRevoked` is
      fired twice for the owner, first for the sibling and then for the token;
      without one, the token's record is inserted and the event fired once. */
  lemma RevokeAccessTrace(dir: Directory, store: RevocationStore, token: RawToken, now: int, fireEvent: bool)
    requires !IsRefreshTyped(token)
    requires Revoke(dir, store, token, now, fireEvent).result.Ok?
    ensures && Verify(dir, store, token, now, false).result.Ok?
            && var owner := Verify(dir, store, token, now, false).result.value.user;
            && owner.membershipId in dir.memberships
            && var sibling := StimulateRefreshToken(token, owner, dir.memberships[owner.membershipId]);
            && var r := Revoke(dir, store, token, now, fireEvent);
            && (sibling.Some? ==>
                  r.trace == [Inserted(RecordFor(token, now, owner)), Inserted(RecordFor(sibling.value, now, owner)),
                              Fired(TokenRevoked, owner.id), Fired(TokenRevoked, owner.id)])
            && (sibling.None? ==> r.trace == [Inserted(RecordFor(token, now, owner)), Fired(TokenRevoked, owner.id)])
  {
    RevokeRevokesSibling(dir, store, token, now, fireEvent);
    var recorded := RecordRevocation(dir, store, token, now).value;
    var owner := recorded.user;
    var m := dir.memberships[owner.membershipId];
    var record := RecordFor(token, now, owner);
    assert recorded.record == record;
    match StimulateRefreshToken(token, owner, m)
    case None =>
      assert SiblingToRevoke(token, owner, m).None?;
      assert Revoke(dir, store, token, now, fireEvent).trace == [Inserted(record), Fired(TokenRevoked, owner.id)];
    case Some(sibling) =>
      RevokeWithSibling(dir, store, token, now, fireEvent, sibling);
      var inner := Revoke(dir, recorded.store, sibling, now, false);
      assert inner.trace == [Inserted(RecordFor(sibling, now, owner)), Fired(TokenRevoked, owner.id)] by {
        RevokeRefreshTokenTrace(dir, recorded.store, sibling, now, false);
        var siblingOwner := Verify(dir, recorded.store, sibling, now, false).result.value.user;
        assert Some(siblingOwner.id) == FindClaim(Decode(sibling).value.claims, SubClaim) == Some(owner.id);
      }
      assert Revoke(dir, store, token, now, fireEvent).trace
          == [Inserted(record)] + inner.trace + [Fired(TokenRevoked, owner.id)];
      Wrap(Inserted(record), Inserted(RecordFor(sibling, now, owner)), Fired(TokenRevoked, owner.id), Fired(TokenRevoked, owner.id));
  }

  lemma Wrap(a: Effect, b: Effect, c: Effect, d: Effect)
    ensures [a] + [b, c] + [d] == [a, b, c, d]
  {
  }

  /** `TokenRevoked` is fired whether or not the caller asked for events: the
      flag does not change what a revoke does. */
  lemma RevokeIgnoresFireEvent(dir: Directory, store: RevocationStore, token: RawToken, now: int)
    ensures Revoke(dir, store, token, now, true) == Revoke(dir, store, token, now, false)
  {
  }

  /** Once a token is in the store, in this store or any later one that kept
      its records, every operation that checks the store rejects it first. */
  lemma RevokedIsFinal(dir: Directory, store: RevocationStore, token: RawToken, now: int, later: int, tokenId: string,
                       revokeBefore: bool, fireEvent: bool)
    requires token in store
    ensures Verify(dir, store, token, later, fireEvent) == Reply([], Err(TokenWasRevoked))
    ensures Revoke(dir, store, token, later, fireEvent) == Transition(store, [], Err(TokenWasRevoked))
    ensures Refresh(dir, store, token, tokenId, later, revokeBefore, fireEvent) == Transition(store, [], Err(RefreshTokenWasRevoked))
  {
    RevokeFailsLikeVerify(dir, store, token, later, fireEvent);
  }

  /** A successful revoke makes the token rejected by every later check, on
      any store that kept the records the revoke left. */
  lemma RevokeIsFinal(dir: Directory, store: RevocationStore, token: RawToken, now: int,
                      later: RevocationStore, at: int, tokenId: string)
    requires Revoke(dir, store, token, now).result.Ok?
    requires Revoke(dir, store, token, now).store.Keys <= later.Keys
    ensures Verify(dir, later, token, at).result == Err(TokenWasRevoked)
    ensures Refresh(dir, later, token, tokenId, at).result == Err(RefreshTokenWasRevoked)
  {
    RevokedIsFinal(dir, later, token, now, at, tokenId, true, true);
  }

  // ---------------------------------------------------------------------------
  // Runs of store-changing requests
  // ---------------------------------------------------------------------------

  /** A request that reads or changes the revocation store. */
  datatype Request =
    | VerifyRequest(token: RawToken, now: int)
    | RefreshRequest(token: RawToken, tokenId: string, now: int, revokeBefore: bool)
    | RevokeRequest(token: RawToken, now: int)

  /** The store after one request, whatever its outcome. */
  function Apply(dir: Directory, store: RevocationStore, q: Request): (after: RevocationStore)
    ensures Keeps(store, after)
  {
    match q
    case VerifyRequest(_, _) => store
    case RefreshRequest(token, tokenId, now, revokeBefore) => Refresh(dir, store, token, tokenId, now, revokeBefore).store
    case RevokeRequest(token, now) => Revoke(dir, store, token, now).store
  }

  /** The store after the requests, in order. */
  function Run(dir: Directory, store: RevocationStore, qs: seq<Request>): RevocationStore
    decreases |qs|
  {
    if |qs| == 0 then store else Run(dir, Apply(dir, store, qs[0]), qs[1..])
  }

  /** No sequence of requests removes or rewrites a revocation record. */
  lemma {:induction false} RunKeepsRecords(dir: Directory, store: RevocationStore, qs: seq<Request>)
    ensures Keeps(store, Run(dir, store, qs))
    decreases |qs|
  {
    if |qs| > 0 {
      var next := Apply(dir, store, qs[0]);
      RunKeepsRecords(dir, next, qs[1..]);
      KeepsTransitive(store, next, Run(dir, next, qs[1..]));
    }
  }

  /** A token revoked once is rejected after any later run of requests. */
  lemma RevokedStaysRevoked(dir: Directory, store: RevocationStore, token: RawToken, now: int,
                            qs: seq<Request>, at: int, tokenId: string)
    requires Revoke(dir, store, token, now).result.Ok?
    ensures var after := Run(dir, Revoke(dir, store, token, now).store, qs);
      && Verify(dir, after, token, at).result == Err(TokenWasRevoked)
      && Refresh(dir, after, token, tokenId, at).result == Err(RefreshTokenWasRevoked)
  {
    var revoked := Revoke(dir, store, token, now).store;
    RunKeepsRecords(dir, revoked, qs);
    RevokeIsFinal(dir, store, token, now, Run(dir, revoked, qs), at, tokenId);
  }

  // ---------------------------------------------------------------------------
  // Freshly minted pairs
  // ---------------------------------------------------------------------------

  /** A token that names a resolvable user and membership verifies up to its
      expiry, for that user, reporting the time left and its type. */
  lemma NamedTokenVerifies(dir: Directory, store: RevocationStore, token: RawToken, user: User, m: Membership,
                           later: int, fireEvent: bool)
    requires Resolvable(dir, user, m)
    requires token !in store && Decode(token).Some?
    requires FindClaim(Decode(token).value.claims, SubClaim) == Some(user.id)
    requires FindClaim(Decode(token).value.claims, PrnClaim) == Some(m.id)
    requires later <= Decode(token).value.validTo
    ensures var v := Verify(dir, store, token, later, fireEvent).result;
      && v.Ok? && v.value.user.id == user.id && v.value.user.membershipId == m.id
      && v.value.remaining == Decode(token).value.validTo - later
      && (v.value.isRefreshToken <==> IsRefreshTyped(token))
  {
    GetUserFinds(dir.users, user);
  }

  /** Both tokens of a minted pair verify, for the user and membership they
      were minted for, at any instant up to their expiry; only the refresh
      token is reported as one. */
  lemma MintedPairVerifies(dir: Directory, store: RevocationStore, user: User, m: Membership, tokenId: string,
                           now: int, later: int, fireEvent: bool)
    requires Resolvable(dir, user, m)
    requires now <= later <= now + m.expiresIn
    ensures var pair := GenerateBearerToken(user, m, tokenId, now);
            var v := Verify(dir, store, pair.accessToken, later, fireEvent).result;
      pair.accessToken !in store ==>
        && v.Ok? && v.value.user.id == user.id && v.value.user.membershipId == m.id
        && !v.value.isRefreshToken && v.value.remaining == now + m.expiresIn - later
    ensures var pair := GenerateBearerToken(user, m, tokenId, now);
            var v := Verify(dir, store, pair.refreshToken, later, fireEvent).result;
      pair.refreshToken !in store ==>
        && v.Ok? && v.value.user.id == user.id && v.value.user.membershipId == m.id
        && v.value.isRefreshToken && v.value.remaining == now + m.expiresIn - later
  {
    var pair := GenerateBearerToken(user, m, tokenId, now);
    DecodeSign(AddClaim(NewTokenClaims(tokenId, user, m), RefreshTokenClaim, TrueText), now, m.settings);
    if pair.accessToken !in store {
      NamedTokenVerifies(dir, store, pair.accessToken, user, m, later, fireEvent);
    }
    if pair.refreshToken !in store {
      NamedTokenVerifies(dir, store, pair.refreshToken, user, m, later, fireEvent);
    }
  }

  /** Logging in and then presenting either token within its lifetime
      verifies, for the user who logged in. */
  lemma GeneratedPairVerifies(dir: Directory, hash: PasswordHasher, username: string, password: string,
                              membershipId: string, tokenId: string, now: int,
                              store: RevocationStore, later: int, fireEvent: bool)
    requires Generate(dir, hash, username, password, membershipId, tokenId, now).result.Ok?
    requires membershipId != "" && dir.memberships[membershipId].id == membershipId
    requires now <= later <= now + dir.memberships[membershipId].expiresIn
    ensures var pair := Generate(dir, hash, username, password, membershipId, tokenId, now).result.value;
            var user := GetByUsernameOrEmail(dir.users, username, username, membershipId).value;
      user.id != "" && pair.accessToken !in store ==>
        && Verify(dir, store, pair.accessToken, later, fireEvent).result.Ok?
        && Verify(dir, store, pair.accessToken, later, fireEvent).result.value.user.id == user.id
        && !Verify(dir, store, pair.accessToken, later, fireEvent).result.value.isRefreshToken
    ensures var pair := Generate(dir, hash, username, password, membershipId, tokenId, now).result.value;
            var user := GetByUsernameOrEmail(dir.users, username, username, membershipId).value;
      user.id != "" && pair.refreshToken !in store ==>
        && Verify(dir, store, pair.refreshToken, later, fireEvent).result.Ok?
        && Verify(dir, store, pair.refreshToken, later, fireEvent).result.value.user.id == user.id
        && Verify(dir, store, pair.refreshToken, later, fireEvent).result.value.isRefreshToken
  {
    var m := dir.memberships[membershipId];
    var user := GetByUsernameOrEmail(dir.users, username, username, membershipId).value;
    if user.id != "" {
      MintedPairVerifies(dir, store, user, m, tokenId, now, later, fireEvent);
    }
  }

  /** An access token is never refreshable: presented to refresh, it fails as
      not refreshable and changes nothing. The verifier, by contrast, accepts
      both tokens of a pair and only reports which one it saw
      (`MintedPairVerifies`). */
  lemma AccessTokenIsNotRefreshable(dir: Directory, store: RevocationStore, user: User, m: Membership, tokenId: string,
                                    now: int, newId: string, later: int, revokeBefore: bool, fireEvent: bool)
    ensures var pair := GenerateBearerToken(user, m, tokenId, now);
      pair.accessToken !in store ==>
        Refresh(dir, store, pair.accessToken, newId, later, revokeBefore, fireEvent)
          == Transition(store, [], Err(TokenIsNotRefreshable))
  {
  }

  // ---------------------------------------------------------------------------
  // Refresh
  // ---------------------------------------------------------------------------

  /** Revoking an admitted refresh token cannot fail: it verifies, its
      membership resolves, and it has no sibling, so exactly its own record
      is inserted and `TokenRevoked` fired. */
  lemma RevokeAdmittedRefreshToken(dir: Directory, store: RevocationStore, token: RawToken, now: int, fireEvent: bool)
    requires AdmitRefresh(dir, store, token, now).Ok?
    ensures var user := AdmitRefresh(dir, store, token, now).value.user;
            var record := RecordFor(token, now, user);
      Revoke(dir, store, token, now, fireEvent)
        == Transition(store[token := record], [Inserted(record), Fired(TokenRevoked, user.id)], Ok(true))
  {
    var g := AdmitRefresh(dir, store, token, now).value;
    var v := Verify(dir, store, token, now, false);
    assert v.result.Ok? && v.result.value.user.id == g.user.id && v.result.value.user.membershipId == g.user.membershipId;
    assert GetMembership(dir, v.result.value.user.membershipId).Some?;
    assert IsRefreshTyped(token);
  }

  /** The pair is minted before the presented token is revoked, and that
      revoke cannot undo a refresh that succeeds without it: with or without
      `revokeBefore` the reply is the pair minted for the token's user and
      membership; with it the store gains exactly the record of the
      presented token, without it the store is left alone. */
  lemma RefreshRevokesAfterMinting(dir: Directory, store: RevocationStore, token: RawToken, tokenId: string, now: int,
                                   fireEvent: bool)
    requires AdmitRefresh(dir, store, token, now).Ok?
    ensures var g := AdmitRefresh(dir, store, token, now).value;
            var plain := Refresh(dir, store, token, tokenId, now, false, fireEvent);
            var r := Refresh(dir, store, token, tokenId, now, true, fireEvent);
      && plain.result == Ok(GenerateBearerToken(g.user, g.membership, tokenId, now))
      && plain.store == store
      && r.result == plain.result
      && r.store == store[token := RecordFor(token, now, g.user)]
  {
    RevokeAdmittedRefreshToken(dir, store, token, now, true);
  }

  /** What a refresh that revokes first does, in order: mint the pair, insert
      the record of the presented token, fire `TokenRevoked`, then, when asked,
      `TokenRefreshed`. */
  lemma RefreshTrace(dir: Directory, store: RevocationStore, token: RawToken, tokenId: string, now: int, fireEvent: bool)
    requires AdmitRefresh(dir, store, token, now).Ok?
    ensures var g := AdmitRefresh(dir, store, token, now).value;
            var r := Refresh(dir, store, token, tokenId, now, true, fireEvent);
      r.trace == [Minted(GenerateBearerToken(g.user, g.membership, tokenId, now)),
                  Inserted(RecordFor(token, now, g.user)), Fired(TokenRevoked, g.user.id)]
                 + (if fireEvent then [Fired(TokenRefreshed, g.user.id)] else [])
  {
    var g := AdmitRefresh(dir, store, token, now).value;
    var pair := GenerateBearerToken(g.user, g.membership, tokenId, now);
    assert Refresh(dir, store, token, tokenId, now, true, fireEvent)
        == Reissue(dir, store, token, g.user, pair, now, true, fireEvent);
    RevokeAdmittedRefreshToken(dir, store, token, now, true);
    ReissueTrace(dir, store, token, g.user, pair, now, fireEvent,
                 Inserted(RecordFor(token, now, g.user)), Fired(TokenRevoked, g.user.id));
  }

  /** A reissue whose revoke emits `a` then `b` emits the minted pair, `a`,
      `b`, then `TokenRefreshed` when asked. */
  lemma ReissueTrace(dir: Directory, store: RevocationStore, token: RawToken, user: User, pair: BearerToken,
                     now: int, fireEvent: bool, a: Effect, b: Effect)
    requires Revoke(dir, store, token, now).result.Ok? && Revoke(dir, store, token, now).trace == [a, b]
    ensures Reissue(dir, store, token, user, pair, now, true, fireEvent).trace
            == [Minted(pair), a, b] + (if fireEvent then [Fired(TokenRefreshed, user.id)] else [])
  {
    var events := if fireEvent then [Fired(TokenRefreshed, user.id)] else [];
    assert Reissue(dir, store, token, user, pair, now, true, fireEvent).trace == [Minted(pair)] + [a, b] + events;
    Prepend(Minted(pair), a, b, events);
  }

  lemma Prepend(a: Effect, b: Effect, c: Effect, rest: seq<Effect>)
    ensures [a] + [b, c] + rest == [a, b, c] + rest
  {
  }

  /** The refresh token of a freshly minted pair refreshes, within its
      lifetime, to a new pair for the same user and membership, and is itself
      revoked by doing so. */
  lemma MintedRefreshTokenRefreshes(dir: Directory, store: RevocationStore, user: User, m: Membership, tokenId: string,
                                    now: int, newId: string, later: int, fireEvent: bool)
    requires Resolvable(dir, user, m) && Registered(dir, m)
    requires now <= later <= now + m.expiresIn
    requires GenerateBearerToken(user, m, tokenId, now).refreshToken !in store
    ensures var refresh := GenerateBearerToken(user, m, tokenId, now).refreshToken;
            var r := Refresh(dir, store, refresh, newId, later, true, fireEvent);
      && r.result.Ok?
      && Decode(r.result.value.accessToken).Some?
      && FindClaim(Decode(r.result.value.accessToken).value.claims, SubClaim) == Some(user.id)
      && FindClaim(Decode(r.result.value.accessToken).value.claims, PrnClaim) == Some(m.id)
      && FindClaim(Decode(r.result.value.accessToken).value.claims, JtiClaim) == Some(newId)
      && r.store == store[refresh := RecordFor(refresh, later, user)]
  {
    var refresh := GenerateBearerToken(user, m, tokenId, now).refreshToken;
    DecodeSign(AddClaim(NewTokenClaims(tokenId, user, m), RefreshTokenClaim, TrueText), now, m.settings);
    GetUserFinds(dir.users, user);
    var g := AdmitRefresh(dir, store, refresh, later);
    assert g.Ok?;
    assert g.value.user.id == user.id && g.value.membership == m;
    RefreshRevokesAfterMinting(dir, store, refresh, newId, later, fireEvent);
  }

  /** Revoking the access token of a minted pair also revokes the refresh
      token minted with it, so that refresh token can no longer be refreshed. */
  lemma RevokeAccessRevokesPair(dir: Directory, store: RevocationStore, user: User, m: Membership, tokenId: string,
                                now: int, later: int, newId: string, at: int)
    requires Resolvable(dir, user, m) && Registered(dir, m)
    requires now <= later <= now + m.expiresIn
    requires GenerateBearerToken(user, m, tokenId, now).accessToken !in store
    requires GenerateBearerToken(user, m, tokenId, now).refreshToken !in store
    ensures var pair := GenerateBearerToken(user, m, tokenId, now);
            var r := Revoke(dir, store, pair.accessToken, later);
      && r.result == Ok(true)
      && pair.accessToken in r.store && pair.refreshToken in r.store
      && Refresh(dir, r.store, pair.refreshToken, newId, at).result == Err(RefreshTokenWasRevoked)
  {
    var pair := GenerateBearerToken(user, m, tokenId, now);
    var claims := NewTokenClaims(tokenId, user, m);
    DecodeSign(claims, now, m.settings);
    DecodeSign(AddClaim(claims, RefreshTokenClaim, TrueText), now, m.settings);
    GetUserFinds(dir.users, user);
    MintedPairVerifies(dir, store, user, m, tokenId, now, later, false);
    var recorded := RecordRevocation(dir, store, pair.accessToken, later);
    assert recorded.Ok?;
    var owner := recorded.value.user;
    assert owner.id == user.id && owner.membershipId == m.id;
    assert GetMembership(dir, owner.membershipId) == Some(m);
    assert NewTokenClaims(tokenId, owner, m) == claims;
    assert StimulateRefreshToken(pair.accessToken, owner, m) == Some(pair.refreshToken);
    assert SiblingToRevoke(pair.accessToken, owner, m) == Some(pair.refreshToken);
    MintedPairVerifies(dir, recorded.value.store, user, m, tokenId, now, later, false);
    var inner := Revoke(dir, recorded.value.store, pair.refreshToken, later, false);
    assert inner.result.Ok?;
    RevokedIsFinal(dir, Revoke(dir, store, pair.accessToken, later).store, pair.refreshToken, later, at, newId, true, true);
  }

  /** Once the refresh token of a pair is revoked, as a refresh with
      `revokeBefore` does, revoking the pair's access token still records it,
      then fails with `TokenWasRevoked` on the already revoked sibling. */
  lemma RevokeAccessAfterRefresh(dir: Directory, store: RevocationStore, user: User, m: Membership, tokenId: string,
                                 now: int, later: int)
    requires Resolvable(dir, user, m) && Registered(dir, m)
    requires now <= later <= now + m.expiresIn
    requires GenerateBearerToken(user, m, tokenId, now).accessToken !in store
    requires GenerateBearerToken(user, m, tokenId, now).refreshToken in store
    ensures var pair := GenerateBearerToken(user, m, tokenId, now);
            var r := Revoke(dir, store, pair.accessToken, later);
      r.result == Err(TokenWasRevoked) && pair.accessToken in r.store
  {
    var pair := GenerateBearerToken(user, m, tokenId, now);
    var claims := NewTokenClaims(tokenId, user, m);
    DecodeSign(claims, now, m.settings);
    GetUserFinds(dir.users, user);
    MintedPairVerifies(dir, store, user, m, tokenId, now, later, false);
    var recorded := RecordRevocation(dir, store, pair.accessToken, later);
    assert recorded.Ok?;
    var owner := recorded.value.user;
    assert owner.id == user.id && owner.membershipId == m.id;
    assert GetMembership(dir, owner.membershipId) == Some(m);
    assert NewTokenClaims(tokenId, owner, m) == claims;
    assert SiblingToRevoke(pair.accessToken, owner, m) == Some(pair.refreshToken);
    RevokedIsFinal(dir, recorded.value.store, pair.refreshToken, later, later, tokenId, false, false);
  }


  // ---------------------------------------------------------------------------
  // Expiry
  // ---------------------------------------------------------------------------

  /** The expiry instant itself is still within a token's lifetime; one
      second later it is not. */
  lemma VerifyExpiryBoundary(dir: Directory, store: RevocationStore, token: RawToken, fireEvent: bool)
    requires token !in store && Decode(token).Some?
    ensures Verify(dir, store, token, Decode(token).value.validTo, fireEvent).result != Err(TokenWasExpired)
    ensures Verify(dir, store, token, Decode(token).value.validTo + 1, fireEvent).result == Err(TokenWasExpired)
  {
  }

  /** The same boundary for the checks a refresh token must pass. */
  lemma AdmitExpiryBoundary(dir: Directory, store: RevocationStore, token: RawToken)
    requires token !in store && Decode(token).Some?
    ensures AdmitRefresh(dir, store, token, Decode(token).value.validTo) != Err(RefreshTokenWasExpired)
    ensures IsRefreshTyped(token) ==>
      AdmitRefresh(dir, store, token, Decode(token).value.validTo + 1) == Err(RefreshTokenWasExpired)
  {
  }

  /** A refresh at the expiry instant is not refused as expired, whether or not
      it revokes first; one second later a refresh token is. */
  lemma RefreshExpiryBoundary(dir: Directory, store: RevocationStore, token: RawToken, tokenId: string,
                              revokeBefore: bool, fireEvent: bool)
    requires token !in store && Decode(token).Some?
    ensures Refresh(dir, store, token, tokenId, Decode(token).value.validTo, revokeBefore, fireEvent).result
            != Err(RefreshTokenWasExpired)
    ensures IsRefreshTyped(token) ==>
      Refresh(dir, store, token, tokenId, Decode(token).value.validTo + 1, revokeBefore, fireEvent).result
        == Err(RefreshTokenWasExpired)
  {
    var end := Decode(token).value.validTo;
    AdmitExpiryBoundary(dir, store, token);
    if AdmitRefresh(dir, store, token, end).Ok? {
      RefreshRevokesAfterMinting(dir, store, token, tokenId, end, fireEvent);
    }
  }
}
