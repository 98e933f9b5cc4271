# ErtisAuth token lifecycle, RBAC decision and two selectors, in Dafny

This project models three parts of ErtisAuth, a multi-tenant authentication and authorization server.

1. **The token service.** Modules `Jwt`, `TokenService` and `TokenLifecycle`.
   - A login (`Generate`) mints a bearer pair: an access token and a refresh token. Both are signed from the same claims: `jti`, `sub` and the membership id in `prn`. The refresh token carries an extra `refresh_token=true` claim.
   - `Verify` checks a presented token against the revocation store, its expiry and its claims.
   - `Refresh` exchanges a refresh token for a new pair. It mints the new pair before it revokes the old token.
   - `Revoke` verifies a token and records it in the store. For an access token, it also rebuilds the sibling refresh token from the same `jti` and issue instant, and revokes that too.
   - Every operation is a fail-fast chain of named errors, modelled as a `Result`.
   - The revocation store is a map keyed by raw token.
   - The signer is a datatype constructor, so signing is injective, and `Decode` is its inverse.
   - The clock, the fresh token id and the password hash function are parameters.
   - Fired events are recorded as a trace of effects.
2. **RBAC permissions.** Modules `RbacGrammar`, `AccessControl` and `AccessControlCases`.
   - A permission string `subject.resource.action[.object]` parses into four segments, with `*` as the wildcard. A missing object becomes the wildcard.
   - A statement permits or forbids a pattern.
   - Among the statements that match the asked permission, the most specific ones decide. A forbid wins a tie, and no match denies.
   - A user's own statements are combined with those of its role.
   - The unit tests' cases are proved over fixture roles and users written out in `access_control_cases.dfy`.
3. **Two small selectors.**
   - `ResetPassword`: the username-or-email priority pick of the reset-password form.
   - `MembershipUsage`: the resources bound to a membership. The users, applications, roles, providers and webhooks are concatenated in that order, then the first `limit` items are taken.

In these places the code does something easy to misread, and the model follows the code:
- `RevokeTokenAsync` passes on whatever error `VerifyTokenAsync` raised: revoked, expired, invalid or user not found. It does not turn them all into an invalid-token error.
- Its own `InvalidToken` branch (`TokenService.cs:308-311`) is never taken, because a validation result is always validated.
- The revocation record is inserted before the membership lookup and before the sibling revoke. A later failure therefore leaves that record in the store. This is why `Transition` carries the store on failure too.
- `TokenRevoked` is fired whatever the `fireEvent` argument says (`TokenService.cs:338`).
- A refresh with `revokeBefore` revokes only the presented refresh token. Revoking the matching access token afterwards records it, then fails with `TokenWasRevoked` when it tries to revoke the already revoked sibling (`TokenLifecycle.RevokeAccessAfterRefresh`).

## Model

| member | source | states |
|---|---|---|
| Jwt.FindClaim | ErtisAuth.Infrastructure/Services/TokenService.cs:136-149 | the claim lookup finds nothing exactly when no claim has that type; otherwise it returns the value of a claim of that type |
| Jwt.FindClaimAt | ErtisAuth.Infrastructure/Services/TokenService.cs:138-142 | the lookup returns the first claim of that type (`FirstOrDefault`) |
| Jwt.DecodeSign | ErtisAuth.Infrastructure/Services/TokenService.cs:115-122 | decoding a signed token gives back its `jti`, `sub`, `prn`, issue instant and expiry |
| Jwt.SignInjective | ErtisAuth.Infrastructure/Services/TokenService.cs:115-122 | two equal tokens were signed from the same claims, instant and crypto settings |
| Jwt.ParseBool | ErtisAuth.Infrastructure/Services/TokenService.cs:131-133 | `bool.TryParse`: true exactly when the text is `true` in any ASCII letter case with only white space and NUL around it, false exactly for `false` so padded, no value for any other text |
| Jwt.TrimFindsPaddedWord | ErtisAuth.Infrastructure/Services/TokenService.cs:131-133 | trimming white space and NUL from both ends and lower-casing yields a word exactly when the text is that word with a trimmable run on each side |
| Jwt.ParseBoolNulPadded | ErtisAuth.Infrastructure/Services/TokenService.cs:131-133 | a leading NUL does not stop `\0true` from reading as true |
| Jwt.RefreshTokenMeansTrueClaim | ErtisAuth.Infrastructure/Services/TokenService.cs:128-134 | a token is a refresh token exactly when its first `refresh_token` claim exists and its value is `true` in any ASCII letter case, padded only with white space and NUL |
| Jwt.RefreshClaimDecidesType | ErtisAuth.Infrastructure/Services/TokenService.cs:121-123 | claims without the refresh claim sign to an access token; adding `refresh_token=true` signs to a refresh token |
| Jwt.SignedPair | ErtisAuth.Infrastructure/Services/TokenService.cs:115-125 | the two tokens of a pair share claims, issue instant and expiry, and differ only by the appended refresh claim |
| TokenService.GetByUsernameOrEmail | ErtisAuth.Infrastructure/Services/TokenService.cs:81-85 | the user found belongs to the membership and matches the username or the email; none is found only when no user of the membership matches |
| TokenService.GetMembership | ErtisAuth.Infrastructure/Services/TokenService.cs:69-73 | a membership is found exactly when one is stored under the asked id, and it is that one; this lookup also serves the refresh (`TokenService.cs:235`) and the revoke (`TokenService.cs:320`) |
| TokenService.GetUser | ErtisAuth.Infrastructure/Services/TokenService.cs:174-187 | the user found has the asked id and membership; none is found only when no such user exists |
| TokenService.GenerateBearerToken | ErtisAuth.Infrastructure/Services/TokenService.cs:115-126 | both tokens decode; they carry the new token id, the user id and the membership id; only the refresh token is refresh-typed; lifetimes come from the membership; the two tokens differ |
| TokenService.Generate | ErtisAuth.Infrastructure/Services/TokenService.cs:66-104 | failure order: membership missing, membership invalid, user not found, then wrong password, and none of these emits anything; success exactly when all four pass, with the pair minted for the found user and `TokenGenerated` fired only when asked |
| TokenService.NonEmptyClaim | ErtisAuth.Infrastructure/Services/TokenService.cs:167-171 | a claim counts only when present and non-empty |
| TokenService.Verify | ErtisAuth.Infrastructure/Services/TokenService.cs:155-212 | revoked first, then undecodable, then expired (the expiry instant still passes), then a missing `prn` or `sub`, then an unknown user, reported as `UserNotFound` with the `sub` id and the `_id` field; on success the user matches the claims, the time left is not negative, and the refresh flag is exactly `IsRefreshToken` |
| TokenService.StimulateRefreshToken | ErtisAuth.Infrastructure/Services/TokenService.cs:348-366 | a sibling exists exactly when the token decodes and has a `jti`; it is refresh-typed and has the same `jti` and issue instant, for the given user and membership |
| TokenService.SiblingToRevoke | ErtisAuth.Infrastructure/Services/TokenService.cs:325-335 | a refresh token has no sibling to revoke; any other token's sibling is exactly the refresh token rebuilt from it for the owner and membership, when one can be rebuilt |
| TokenService.RecordRevocation | ErtisAuth.Infrastructure/Services/TokenService.cs:305-317 | fails exactly when the event-less verify fails, with the same error; otherwise inserts the record of the token, the instant and the owning user |
| TokenService.Revoke | ErtisAuth.Infrastructure/Services/TokenService.cs:305-346 | never removes or changes an existing record, even when it fails; on success the token is in the store |
| TokenService.AdmitRefresh | ErtisAuth.Infrastructure/Services/TokenService.cs:218-297 | the refresh checks in order, each with its own error: revoked, undecodable, not a refresh token, expired, then a missing or empty `prn` (`InvalidToken`), no such membership (`MembershipNotFound` with that id), a missing or empty `sub` (`InvalidToken`), no such user (`UserNotFound` with the `sub` id and `_id`); a token passing all of them is admitted with its payload, membership and user |
| TokenService.Refresh | ErtisAuth.Infrastructure/Services/TokenService.cs:218-299 | a rejected token changes nothing; without `revokeBefore` the store is untouched; on success the reply is the pair minted for the token's user, minting comes first in the trace, and with `revokeBefore` the presented token ends up revoked |
| TokenService.Reissue | ErtisAuth.Infrastructure/Services/TokenService.cs:244-256 | after admission: the reply is the minted pair unless the revoke fails, and it fails only when `revokeBefore` is set and the revoke of the presented token fails; minting comes first; without `revokeBefore` the store is untouched, with it the presented token ends up revoked; no record is lost |
| TokenLifecycle.RevokeFailsLikeVerify | ErtisAuth.Infrastructure/Services/TokenService.cs:307-311 | a token that does not verify is not revoked: the same error, with the store and trace unchanged |
| TokenLifecycle.RevokeRecordsVerifiedToken | ErtisAuth.Infrastructure/Services/TokenService.cs:312-317 | a token that verifies is recorded with the instant and its owner's id, even when a later step fails |
| TokenLifecycle.RevokeRefreshTokenAddsOnlyItself | ErtisAuth.Infrastructure/Services/TokenService.cs:325-335 | revoking a refresh token records no token but itself |
| TokenLifecycle.RevokeMembershipMissing | ErtisAuth.Infrastructure/Services/TokenService.cs:312-323 | a verified token whose owner's membership is missing is still recorded, then the revoke fails with `MembershipNotFound` for that membership id, having fired nothing |
| TokenLifecycle.RevokeRefreshTokenTrace | ErtisAuth.Infrastructure/Services/TokenService.cs:312-338 | a successful revoke of a refresh token inserts its own record and then fires `TokenRevoked` once for its owner |
| TokenLifecycle.RevokeWithSibling | ErtisAuth.Infrastructure/Services/TokenService.cs:325-340 | once a sibling is derived, a failed sibling revoke fails the outer revoke, and a successful one is followed by `TokenRevoked` for the owner and success |
| TokenLifecycle.RevokeRevokesSibling | ErtisAuth.Infrastructure/Services/TokenService.cs:318-335 | a successful revoke of any token that is not a refresh token found its owner's membership and left the rebuilt sibling refresh token, whenever one exists, in the store |
| TokenLifecycle.RevokeAccessTrace | ErtisAuth.Infrastructure/Services/TokenService.cs:312-340 | the events of that revoke: the token's record, then the sibling's record, then `TokenRevoked` twice for the owner; only the token's record and one `TokenRevoked` when no sibling exists |
| TokenLifecycle.RevokeIgnoresFireEvent | ErtisAuth.Infrastructure/Services/TokenService.cs:338 | a revoke behaves the same, events included, whatever `fireEvent` says |
| TokenLifecycle.RevokedIsFinal | ErtisAuth.Infrastructure/Services/TokenService.cs:157-161 | a token in the store is rejected first: by verify as revoked, by revoke with the same error, and by refresh as a revoked refresh token |
| TokenLifecycle.RevokeIsFinal | ErtisAuth.Infrastructure/Services/TokenService.cs:312-317 | after a successful revoke, verify and refresh reject the token on every store that kept the records |
| TokenLifecycle.Apply | ErtisAuth.Infrastructure/Services/TokenService.cs:312-317 | no verify, refresh or revoke request removes or rewrites a revocation record, whether it succeeds or fails |
| TokenLifecycle.RunKeepsRecords | ErtisAuth.Infrastructure/Services/TokenService.cs:312-317 | no sequence of requests removes or rewrites a record |
| TokenLifecycle.RevokedStaysRevoked | ErtisAuth.Infrastructure/Services/TokenService.cs:157-161 | a token revoked once stays rejected by verify and refresh after any later sequence of requests |
| TokenLifecycle.NamedTokenVerifies | ErtisAuth.Infrastructure/Services/TokenService.cs:163-181 | an unrevoked token naming an existing user and membership verifies up to its expiry, with its time left and its type |
| TokenLifecycle.MintedPairVerifies | ErtisAuth.Infrastructure/Services/TokenService.cs:163-181 | both tokens of a freshly minted pair verify for their user within their lifetime; only the refresh token is reported as one |
| TokenLifecycle.GeneratedPairVerifies | ErtisAuth.Infrastructure/Services/TokenService.cs:66-104 | the pair from a successful login verifies for the user who logged in |
| TokenLifecycle.AccessTokenIsNotRefreshable | ErtisAuth.Infrastructure/Services/TokenService.cs:226-229 | presenting an access token to refresh fails as not refreshable and changes nothing |
| TokenLifecycle.RevokeAdmittedRefreshToken | ErtisAuth.Infrastructure/Services/TokenService.cs:305-341 | revoking an admitted refresh token cannot fail: exactly its record is inserted and `TokenRevoked` fired |
| TokenLifecycle.RefreshRevokesAfterMinting | ErtisAuth.Infrastructure/Services/TokenService.cs:244-249 | the revoke after minting cannot undo an admitted refresh: with or without `revokeBefore` the reply is the same pair; with it exactly the presented token is recorded |
| TokenLifecycle.RefreshTrace | ErtisAuth.Infrastructure/Services/TokenService.cs:244-256 | a refresh that revokes first emits, in order: minted pair, inserted record, `TokenRevoked`, then `TokenRefreshed` when asked |
| TokenLifecycle.ReissueTrace | ErtisAuth.Infrastructure/Services/TokenService.cs:244-256 | the minted pair comes before the effects of the revoke, and `TokenRefreshed` comes last and only when asked |
| TokenLifecycle.MintedRefreshTokenRefreshes | ErtisAuth.Infrastructure/Services/TokenService.cs:218-256 | a fresh refresh token refreshes within its lifetime to a pair for the same user and membership with the new id, and becomes revoked |
| TokenLifecycle.RevokeAccessRevokesPair | ErtisAuth.Infrastructure/Services/TokenService.cs:325-335 | revoking a fresh access token also revokes the refresh token minted with it, which can no longer be refreshed |
| TokenLifecycle.RevokeAccessAfterRefresh | ErtisAuth.Infrastructure/Services/TokenService.cs:312-335 | when the refresh token of a pair is already revoked, revoking the access token records it and then fails with `TokenWasRevoked` |
| TokenLifecycle.VerifyExpiryBoundary | ErtisAuth.Infrastructure/Services/TokenService.cs:165-166 | verify does not reject a token as expired at its expiry instant, and does one second later |
| TokenLifecycle.AdmitExpiryBoundary | ErtisAuth.Infrastructure/Services/TokenService.cs:230-231 | the same inclusive boundary for refresh admission |
| TokenLifecycle.RefreshExpiryBoundary | ErtisAuth.Infrastructure/Services/TokenService.cs:230-286 | refresh does not reject a token as expired at its expiry instant, and rejects a refresh token one second later |
| RbacGrammar.Parse | ErtisAuth.Tests/RoleTests.cs:44-60 | parses exactly the strings of three or four non-empty segments; segments map in order, `*` becomes the wildcard, and a missing object is the wildcard |
| RbacGrammar.ParseRender | ErtisAuth.Tests/RoleTests.cs:44-60 | rendering a well-formed permission and parsing it back gives the same permission |
| RbacGrammar.RenderParse | ErtisAuth.Tests/RoleTests.cs:50-54 | a parsed four-segment string renders back to itself; a three-segment string renders with `.*` appended |
| RbacGrammar.ParseFour | ErtisAuth.Tests/RoleTests.cs:44-48 | any four separator-free non-empty segments parse in order |
| RbacGrammar.ParseThree | ErtisAuth.Tests/RoleTests.cs:50-54 | any three separator-free non-empty segments parse with a wildcard object |
| AccessControlCases.RbacParseFourSegments | ErtisAuth.Tests/RoleTests.cs:44-48 | `ertugrulozcan.users.write.*` parses to its four segments, with a wildcard object |
| AccessControlCases.RbacParseThreeSegments | ErtisAuth.Tests/RoleTests.cs:50-54 | `*.users.write` parses with wildcard subject and wildcard object |
| AccessControlCases.RbacParseLiteralObject | ErtisAuth.Tests/RoleTests.cs:56-60 | a literal object id is kept verbatim |
| AccessControl.Rank | ErtisAuth.Tests/Infrastructure/Services/AccessControlServiceTests.cs:110-144 | the scan finds the highest specificity among matching statements (-1 exactly when none matches), and whether a forbid sits at that level |
| AccessControl.DecideMeansPermitted | ErtisAuth.Tests/Infrastructure/Services/AccessControlServiceTests.cs:110-144 | the one-pass decision permits exactly when some matching permit is unbeaten by a more specific match and ties only permits |
| AccessControl.DefaultDeny | ErtisAuth.Tests/Infrastructure/Services/AccessControlServiceTests.cs:119-126 | with no matching statement, access is denied |
| AccessControl.DenyWinsTie | ErtisAuth.Tests/Infrastructure/Services/AccessControlServiceTests.cs:156-164 | a matching forbid that nothing outranks denies, whatever permits share its level |
| AccessControl.MostSpecificDecides | ErtisAuth.Tests/Infrastructure/Services/AccessControlServiceTests.cs:186-194 | a matching statement strictly more specific than all other matches decides alone |
| AccessControl.RankSkipsInertPrefix | ErtisAuth.Tests/Infrastructure/Services/AccessControlServiceTests.cs:146-184 | statements that match nothing, placed first, do not change the scan; this is why `restricted_user_id`'s own create forbid leaves its role's reads, updates and deletes standing |
| AccessControl.RankSkipsInertSuffix | ErtisAuth.Tests/Infrastructure/Services/AccessControlServiceTests.cs:186-194 | statements that match nothing, placed last, do not change the scan; this is why the `readonly` role's statements leave `qualified_user_id`'s own create permit deciding |
| AccessControl.NonMatchingStatementsIrrelevant | ErtisAuth.Tests/Infrastructure/Services/AccessControlServiceTests.cs:146-194 | adding statements that do not match, before or after, leaves the decision unchanged |
| AccessControl.FindRole | ErtisAuth.Tests/Infrastructure/Services/AccessControlServiceTests.cs:41 | the role found has the slug and membership asked for; none is found only when no role matches |
| AccessControl.EffectiveStatements | ErtisAuth.Tests/Infrastructure/Services/AccessControlServiceTests.cs:149-153 | a user's statements come first and are always included; with a role found, the role's statements follow them and nothing else; without a role, the user's are all there is |
| AccessControl.HasRolePermission | ErtisAuth.Tests/Infrastructure/Services/AccessControlServiceTests.cs:41-44 | fails exactly when the permission string does not parse; otherwise answers whether the role's statements permit it |
| AccessControl.HasUserPermission | ErtisAuth.Tests/Infrastructure/Services/AccessControlServiceTests.cs:149-153 | fails exactly when the permission string does not parse; otherwise answers whether the user's and its role's statements permit it |
| AccessControlCases.AdminGrantsUserActions | ErtisAuth.Tests/Infrastructure/Services/AccessControlServiceTests.cs:38-108 | `admin` grants every action on users, for the wildcard object and for a concrete id such as `test_utilizer` |
| AccessControlCases.ReadonlyReads | ErtisAuth.Tests/Infrastructure/Services/AccessControlServiceTests.cs:110-117 | `readonly` reads any user, `forbid_user_id` included |
| AccessControlCases.ReadonlyDeniesWrites | ErtisAuth.Tests/Infrastructure/Services/AccessControlServiceTests.cs:119-144 | `readonly` may not create, update or delete `forbid_user_id` |
| AccessControlCases.ReadonlyDeniesCreate | ErtisAuth.Tests/Infrastructure/Services/AccessControlServiceTests.cs:119-126 | no statement of `readonly` matches a create, so it is denied |
| AccessControlCases.ReadonlyDeniesUpdate | ErtisAuth.Tests/Infrastructure/Services/AccessControlServiceTests.cs:128-135 | the forbid on update of `forbid_user_id` is the only matching statement of `readonly`, so it decides: denied |
| AccessControlCases.ReadonlyDeniesDelete | ErtisAuth.Tests/Infrastructure/Services/AccessControlServiceTests.cs:137-144 | the forbid on delete of `forbid_user_id` is the only matching statement of `readonly`, so it decides: denied |
| AccessControlCases.RestrictedUserCases | ErtisAuth.Tests/Infrastructure/Services/AccessControlServiceTests.cs:146-184 | `restricted_user_id` reads, updates and deletes users but may not create them; apart from create, its own statement is inert and the admin role decides |
| AccessControlCases.QualifiedUserCases | ErtisAuth.Tests/Infrastructure/Services/AccessControlServiceTests.cs:186-214 | `qualified_user_id` creates users but may neither update nor delete them; no statement of its `readonly` role matches these asks, so its own permit decides create |
| ResetPassword.FirstNonEmpty | ErtisAuth.WebAPI/Models/Request/Users/ResetPasswordFormModel.cs:19-37 | the reference pick: null exactly when every candidate is null or empty, otherwise the first candidate that is neither |
| ResetPassword.UsernameOrEmailAddress | ErtisAuth.WebAPI/Models/Request/Users/ResetPasswordFormModel.cs:19-37 | a set email address wins; otherwise a set email; otherwise a set username; null exactly when all three are null or empty; never empty |
| ResetPassword.SelectorIsFirstNonEmpty | ErtisAuth.WebAPI/Models/Request/Users/ResetPasswordFormModel.cs:23-36 | the selector is the first non-empty of email address, email, username |
| ResetPassword.ToString | ErtisAuth.WebAPI/Models/Request/Users/ResetPasswordFormModel.cs:44-47 | the form prints as the first non-empty of its three fields |
| MembershipUsage.Queries | ErtisAuth.Infrastructure/Services/MembershipUsageService.cs:54-58 | each of the five services is asked for the same membership, with skip 0 and the caller's limit |
| MembershipUsage.Take | ErtisAuth.Infrastructure/Services/MembershipUsageService.cs:75 | `Take`: a prefix of the list; empty for a non-positive count; the whole list for a count past its end; exactly `n` items otherwise |
| MembershipUsage.BoundedResources | ErtisAuth.Infrastructure/Services/MembershipUsageService.cs:52-76 | a prefix of the joined lists, at most `limit` long, empty for a non-positive limit, everything when it fits, exactly `limit` items when it does not |
| MembershipUsage.BoundedResourcesSync | ErtisAuth.Infrastructure/Services/MembershipUsageService.cs:49-50 | the blocking wrapper returns the same value as the asynchronous method |
| MembershipUsage.SyncUsesDefaultLimit | ErtisAuth.Infrastructure/Services/MembershipUsageService.cs:49-50 | without a limit, at most ten items come back: the first ten of the joined lists |
| MembershipUsage.GetBoundedResources | ErtisAuth.Infrastructure/Services/MembershipUsageService.cs:52-76 | appending the five pages in order and taking `limit` computes the declarative selection |
| MembershipUsage.UsersComeFirst | ErtisAuth.Infrastructure/Services/MembershipUsageService.cs:68-75 | the first items are the users, in the order the user service returned them |
| MembershipUsage.KindsKeepTheirOrder | ErtisAuth.Infrastructure/Services/MembershipUsageService.cs:68-75 | every item of an earlier kind precedes every item of a later kind, and items under the limit keep their positions |
| MembershipUsage.EverythingFits | ErtisAuth.Infrastructure/Services/MembershipUsageService.cs:68-75 | when the total is at most `limit`, every fetched item is in the result |

## Left out

- JWT signing, encoding and signature checking are not modelled. A token is either a signed payload or malformed text, and only malformed text fails to decode. Hash algorithm and encoding are carried along as `CryptoSettings`.
- Token expiry: `TokenClaims` and the JWT service are not part of this model. A token's expiry is taken as its issue instant plus the membership's access lifetime, for both tokens of a pair. The refresh lifetime is only reported in the `BearerToken`.
- `DateTime.Now`, `ToLocalTime` and `TimeSpan` become integer seconds passed in as `now`. The time left in a validation result is the integer difference.
- TokenService.Verify: every clock read in one call is taken to be the same instant `now`. The code reads `DateTime.Now` for the expiry check (`TokenService.cs:166`) and again, after the user lookup and the event, for the time left (`TokenService.cs:181`), so there the time left can come out negative; the model's `remaining >= 0` holds only because the two reads coincide.
- TokenService.GenerateBearerToken: both tokens of a pair are signed at the one instant `now`. In the code they come from two separate `GenerateToken` calls (`TokenService.cs:121` and `:123`), and the JWT service, which is not part of this model, picks each token's issue instant. The refresh token rebuilt for a revoke (`TokenService.cs:357`) is signed at the access token's issue instant, so it equals the minted refresh token only when the two calls share that instant. `TokenLifecycle.RevokeAccessRevokesPair` and `TokenLifecycle.RevokeAccessAfterRefresh` rely on this.
- TokenLifecycle.RevokeAccessRevokesPair: besides the shared issue instant above, a revoke reads the clock once. In the code the outer verify (`TokenService.cs:307`, then `:166`) and the sibling's verify inside `RevokeRefreshTokenAsync` (`:333`, `:345`, `:307`, then `:166`) read `DateTime.Now` separately. An access token that expires between the two reads is recorded, and the revoke then fails with `TokenWasExpired` without recording the refresh token. The lemma's `Ok(true)` with the refresh token recorded, for every instant up to the expiry, holds only under the single reading; `TokenLifecycle.RevokeAccessAfterRefresh` uses the same reading.
- TokenService.Refresh: the admission check (`TokenService.cs:231`) and the verify inside the revoke after minting (`TokenService.cs:248`, then `:166`) share one instant `now`. In the code the clock is read again, so a refresh token that expires between the two reads makes the refresh fail with `TokenWasExpired` after the new pair was minted. `TokenLifecycle.RevokeAdmittedRefreshToken` and `TokenLifecycle.RefreshRevokesAfterMinting`, which say that revoke cannot fail, rely on the shared instant.
- `Guid.NewGuid` becomes the `tokenId` parameter.
- `HashProvider.Hash` becomes the `hash` function parameter.
- `Membership.IsValid` is its list of validation errors, carried in the membership.
- Events are recorded as trace entries with the event type and user id. Their payloads, such as the token objects and `new { token }`, are left out.
- `async`/`Task`, repository persistence and concurrent requests are not modelled. The revocation repository's `FindOneAsync` is map membership, and `InsertAsync` is map update.
- Jwt.ParseBool: only ASCII letters are case-folded. Whether .NET's ordinal case-insensitive comparison also takes a non-ASCII letter, such as the long s `ſ`, for its ASCII counterpart is not modelled. The trimmed characters are `char.IsWhiteSpace`'s set and NUL.
- TokenService.Revoke: its contract states only that records are kept and the token is recorded. Its failure cases and effects are stated by the `TokenLifecycle` lemmas: `RevokeFailsLikeVerify`, `RevokeRecordsVerifiedToken`, `RevokeMembershipMissing`, `RevokeRefreshTokenTrace`, `RevokeWithSibling`, `RevokeRevokesSibling` and `RevokeAccessTrace`.
- TokenLifecycle.RevokeRefreshTokenAddsOnlyItself: the key-set bound is proved for refresh tokens only. For any other token, `RevokeRevokesSibling` states that the derived sibling is also recorded, and `RevokeAccessTrace` gives the exact inserts.
- The `Rbac`, `RbacSegment` and `AccessControlService` implementations are not part of this model. The decision rule is the one the `AccessControlServiceTests` and `RoleTests` cases pin: most specific match decides, forbid wins a tie, no match denies. It is checked against every case the unit tests pin.
- The mock role and user services of the tests are not part of this model. Their roles and users are stated as explicit fixtures: `admin` permits `*.*.*.*`; `readonly` permits `*.users.read.*` and forbids update and delete of `forbid_user_id`; `restricted_user_id` (role admin) forbids `*.users.create.*`; `qualified_user_id` (role readonly) permits `*.users.create.*`.
- An ask segment written `*` is matched only by a wildcard pattern segment.
- A malformed permission string yields an error value rather than an exception; the implementation's exact exception is not part of this model.
- `MembershipUsageService` runs its five calls with `Task.WhenAll`; only the joined result is modelled. Page metadata and the unused query arguments (sorting, no counting, null fields) are left out.
- `RevokeRefreshTokenAsync` is modelled as the inner `Revoke(..., false)` call inside `TokenService.Revoke`, which is what it delegates to.
- Other classes of the repository are outside this model: user and membership DTOs beyond the fields used, MongoDB CRUD plumbing, the event repository, the SDK interfaces and token code policies.
