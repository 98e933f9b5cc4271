/** The permission decision over role-level (RBAC) and user-level (UBAC)
    statements: among the statements whose pattern covers the asked permission,
    the most specific ones decide, a forbid wins a tie, and no match denies. */
module AccessControl {
  import opened Results
  import opened RbacGrammar

  datatype Decision = Permit | Forbid

  datatype Statement = Statement(decision: Decision, pattern: Rbac)

  datatype Role = Role(slug: string, membershipId: string, statements: seq<Statement>)

  /** A user as a principal: its own statements augment those of its role. */
  datatype UserPrincipal = UserPrincipal(id: string, membershipId: string, roleSlug: string, statements: seq<Statement>)

  /** A pattern position covers the asked position when it is the wildcard or
      the very same segment. */
  predicate SegmentMatches(pattern: Segment, asked: Segment) {
    pattern.All? || pattern == asked
  }

  predicate Matches(pattern: Rbac, asked: Rbac) {
    && SegmentMatches(pattern.subject, asked.subject)
    && SegmentMatches(pattern.resource, asked.resource)
    && SegmentMatches(pattern.action, asked.action)
    && SegmentMatches(pattern.obj, asked.obj)
  }

  function LiteralCount(seg: Segment): nat {
    if seg.Literal? then 1 else 0
  }

  /** The number of literal segments of a pattern, 0 to 4. */
  function Specificity(r: Rbac): (n: nat)
    ensures n <= 4
    ensures n == 4 <==> r.subject.Literal? && r.resource.Literal? && r.action.Literal? && r.obj.Literal?
    ensures n == 0 <==> r.subject.All? && r.resource.All? && r.action.All? && r.obj.All?
  {
    LiteralCount(r.subject) + LiteralCount(r.resource) + LiteralCount(r.action) + LiteralCount(r.obj)
  }

  predicate Applies(s: Statement, asked: Rbac) {
    Matches(s.pattern, asked)
  }

  /** The outcome of a scan: the highest specificity among matching statements
      (-1 when none matches) and whether a forbid sits at that level. */
  datatype Ranking = Ranking(level: int, forbidden: bool)

  /** One pass over the statements keeping the best level seen and whether a
      forbid occurs at it. */
  function Rank(stmts: seq<Statement>, asked: Rbac): (best: Ranking)
    ensures best.level == -1 <==> forall i :: 0 <= i < |stmts| ==> !Applies(stmts[i], asked)
    ensures best.level >= -1
    ensures best.level >= 0 ==> exists i :: 0 <= i < |stmts| && Applies(stmts[i], asked) && Specificity(stmts[i].pattern) == best.level
    ensures forall i :: 0 <= i < |stmts| && Applies(stmts[i], asked) ==> Specificity(stmts[i].pattern) <= best.level
    ensures best.forbidden <==> exists i :: 0 <= i < |stmts| && Applies(stmts[i], asked)
                                  && stmts[i].decision == Forbid && Specificity(stmts[i].pattern) == best.level
  {
    if |stmts| == 0 then Ranking(-1, false)
    else
      var rest := Rank(stmts[1..], asked);
      var s := stmts[0];
      assert forall i :: 1 <= i < |stmts| ==> stmts[i] == stmts[1..][i - 1];
      if !Applies(s, asked) then rest
      else
        var level := Specificity(s.pattern);
        if level > rest.level then Ranking(level, s.decision == Forbid)
        else if level == rest.level then Ranking(level, rest.forbidden || s.decision == Forbid)
        else rest
  }

  /** The decision: some statement matches and no forbid is among the most
      specific matches. */
  function Decide(stmts: seq<Statement>, asked: Rbac): bool {
    var best := Rank(stmts, asked);
    best.level >= 0 && !best.forbidden
  }

  /** Statement `i` is a matching permit that no matching statement outranks,
      and every matching statement as specific as it is a permit too. */
  predicate Wins(stmts: seq<Statement>, asked: Rbac, i: int)
    requires 0 <= i < |stmts|
  {
    && Applies(stmts[i], asked)
    && stmts[i].decision == Permit
    && forall j :: 0 <= j < |stmts| && Applies(stmts[j], asked) ==>
         Specificity(stmts[j].pattern) < Specificity(stmts[i].pattern)
         || (Specificity(stmts[j].pattern) == Specificity(stmts[i].pattern) && stmts[j].decision == Permit)
  }

  /** The declarative reading of the rule: access is permitted exactly when some
      matching permit wins. */
  predicate Permitted(stmts: seq<Statement>, asked: Rbac) {
    exists i :: 0 <= i < |stmts| && Wins(stmts, asked, i)
  }

  /** The one-pass decision agrees with the declarative rule, in both directions. */
  lemma DecideMeansPermitted(stmts: seq<Statement>, asked: Rbac)
    ensures Decide(stmts, asked) <==> Permitted(stmts, asked)
  {
    var best := Rank(stmts, asked);
    if Decide(stmts, asked) {
      var i :| 0 <= i < |stmts| && Applies(stmts[i], asked) && Specificity(stmts[i].pattern) == best.level;
      assert stmts[i].decision == Permit;
      assert Wins(stmts, asked, i);
    }
    if Permitted(stmts, asked) {
      var i :| 0 <= i < |stmts| && Wins(stmts, asked, i);
      assert Specificity(stmts[i].pattern) == best.level;
      assert best.level >= 0;
      assert !best.forbidden;
    }
  }

  /** With no matching statement the answer is no. */
  lemma DefaultDeny(stmts: seq<Statement>, asked: Rbac)
    requires forall i :: 0 <= i < |stmts| ==> !Applies(stmts[i], asked)
    ensures !Decide(stmts, asked)
    ensures !Permitted(stmts, asked)
  {
    DecideMeansPermitted(stmts, asked);
  }

  /** A matching forbid that nothing outranks denies, whatever permits share its level. */
  lemma DenyWinsTie(stmts: seq<Statement>, asked: Rbac, f: int)
    requires 0 <= f < |stmts| && Applies(stmts[f], asked) && stmts[f].decision == Forbid
    requires forall j :: 0 <= j < |stmts| && Applies(stmts[j], asked) ==> Specificity(stmts[j].pattern) <= Specificity(stmts[f].pattern)
    ensures !Decide(stmts, asked)
  {
    var best := Rank(stmts, asked);
    assert Specificity(stmts[f].pattern) == best.level;
  }

  /** A matching statement strictly more specific than every other match decides alone. */
  lemma MostSpecificDecides(stmts: seq<Statement>, asked: Rbac, w: int)
    requires 0 <= w < |stmts| && Applies(stmts[w], asked)
    requires forall j :: 0 <= j < |stmts| && j != w && Applies(stmts[j], asked) ==> Specificity(stmts[j].pattern) < Specificity(stmts[w].pattern)
    ensures Decide(stmts, asked) <==> stmts[w].decision == Permit
  {
    var best := Rank(stmts, asked);
    assert Specificity(stmts[w].pattern) == best.level;
    if stmts[w].decision == Permit {
      assert Wins(stmts, asked, w);
      DecideMeansPermitted(stmts, asked);
    }
  }

  /** Statements that match nothing, placed before the others, leave the scan unchanged. */
  lemma {:induction false} RankSkipsInertPrefix(inert: seq<Statement>, own: seq<Statement>, asked: Rbac)
    requires forall i :: 0 <= i < |inert| ==> !Applies(inert[i], asked)
    ensures Rank(inert + own, asked) == Rank(own, asked)
    decreases |inert|
  {
    if |inert| == 0 {
      assert inert + own == own;
    } else {
      assert (inert + own)[0] == inert[0];
      assert (inert + own)[1..] == inert[1..] + own;
      RankSkipsInertPrefix(inert[1..], own, asked);
    }
  }

  /** Statements that match nothing, placed after the others, leave the scan unchanged. */
  lemma {:induction false} RankSkipsInertSuffix(own: seq<Statement>, inert: seq<Statement>, asked: Rbac)
    requires forall i :: 0 <= i < |inert| ==> !Applies(inert[i], asked)
    ensures Rank(own + inert, asked) == Rank(own, asked)
    decreases |own|
  {
    if |own| == 0 {
      assert own + inert == inert;
    } else {
      assert (own + inert)[0] == own[0];
      assert (own + inert)[1..] == own[1..] + inert;
      RankSkipsInertSuffix(own[1..], inert, asked);
    }
  }

  /** Statements that match nothing do not change a decision: adding user
      statements to a role whose statements do not match decides as the user
      statements alone, and vice versa. */
  lemma NonMatchingStatementsIrrelevant(own: seq<Statement>, inert: seq<Statement>, asked: Rbac)
    requires forall i :: 0 <= i < |inert| ==> !Applies(inert[i], asked)
    ensures Decide(own + inert, asked) == Decide(own, asked)
    ensures Decide(inert + own, asked) == Decide(own, asked)
  {
    RankSkipsInertPrefix(inert, own, asked);
    RankSkipsInertSuffix(own, inert, asked);
  }

  /** `roleService.GetBySlug`: the role of that slug within the membership. */
  function FindRole(roles: seq<Role>, slug: string, membershipId: string): (r: Option<Role>)
    ensures r.Some? ==> r.value in roles && r.value.slug == slug && r.value.membershipId == membershipId
    ensures r.None? ==> forall i :: 0 <= i < |roles| ==> roles[i].slug != slug || roles[i].membershipId != membershipId
  {
    if |roles| == 0 then None
    else if roles[0].slug == slug && roles[0].membershipId == membershipId then Some(roles[0])
    else FindRole(roles[1..], slug, membershipId)
  }

  /** A user's effective statements: its own, then those of its role in the same membership. */
  function EffectiveStatements(roles: seq<Role>, user: UserPrincipal): (stmts: seq<Statement>)
    ensures user.statements <= stmts
    ensures FindRole(roles, user.roleSlug, user.membershipId).None? ==> stmts == user.statements
    ensures FindRole(roles, user.roleSlug, user.membershipId).Some? ==>
              stmts == user.statements + FindRole(roles, user.roleSlug, user.membershipId).value.statements
  {
    match FindRole(roles, user.roleSlug, user.membershipId)
    case Some(role) => user.statements + role.statements
    case None => user.statements
  }

  /** `HasPermission(role, rbac)`. */
  function HasRolePermission(role: Role, rbac: string): (r: Result<bool, RbacError>)
    ensures Parse(rbac).Err? <==> r.Err?
    ensures r.Ok? ==> (r.value <==> Permitted(role.statements, Parse(rbac).value))
  {
    match Parse(rbac)
    case Err(e) => Err(e)
    case Ok(asked) =>
      DecideMeansPermitted(role.statements, asked);
      Ok(Decide(role.statements, asked))
  }

  /** `HasPermission(user, rbac)`: the user's own and its role's statements together. */
  function HasUserPermission(roles: seq<Role>, user: UserPrincipal, rbac: string): (r: Result<bool, RbacError>)
    ensures Parse(rbac).Err? <==> r.Err?
    ensures r.Ok? ==> (r.value <==> Permitted(EffectiveStatements(roles, user), Parse(rbac).value))
  {
    match Parse(rbac)
    case Err(e) => Err(e)
    case Ok(asked) =>
      var stmts := EffectiveStatements(roles, user);
      DecideMeansPermitted(stmts, asked);
      Ok(Decide(stmts, asked))
  }
}
