/** The grammar and decision cases the repository's unit tests pin, over
    fixture roles and users written out here: the mocked role and user services
    of the tests are not part of this model, so their contents are stated
    explicitly below. */
module AccessControlCases {
  import opened Results
  import opened RbacGrammar
  import opened AccessControl

  const Membership: string := "test_membership"

  function P(s: string, r: string, a: string, o: string): Rbac {
    Rbac(ToSegment(s), ToSegment(r), ToSegment(a), ToSegment(o))
  }

  /** `admin`: permit `*.*.*.*`. */
  const Admin: Role := Role("admin", Membership, [Statement(Permit, P("*", "*", "*", "*"))])

  /** `readonly`: permit `*.users.read.*`, forbid update and delete of `forbid_user_id`. */
  const Readonly: Role := Role("readonly", Membership, [
    Statement(Permit, P("*", "users", "read", "*")),
    Statement(Forbid, P("*", "users", "update", "forbid_user_id")),
    Statement(Forbid, P("*", "users", "delete", "forbid_user_id"))])

  const Roles: seq<Role> := [Admin, Readonly]

  /** An `admin` user with one forbid of its own: `*.users.create.*`. */
  const RestrictedUser: UserPrincipal :=
    UserPrincipal("restricted_user_id", Membership, "admin", [Statement(Forbid, P("*", "users", "create", "*"))])

  /** A `readonly` user with one permit of its own: `*.users.create.*`. */
  const QualifiedUser: UserPrincipal :=
    UserPrincipal("qualified_user_id", Membership, "readonly", [Statement(Permit, P("*", "users", "create", "*"))])

  /** `Rbac.Parse` keeps four segments in order, the wildcard object included. */
  lemma RbacParseFourSegments()
    ensures Parse("ertugrulozcan.users.write.*") == Ok(Rbac(Literal("ertugrulozcan"), Literal("users"), Literal("write"), All))
  {
    var owner, users, write, any := "ertugrulozcan", "users", "write", "*";
    ParseFour(owner, users, write, any);
    assert owner + "." + users + "." + write + "." + any == "ertugrulozcan.users.write.*";
  }

  /** `Rbac.Parse` of three segments: wildcard subject, object defaulted to the wildcard. */
  lemma RbacParseThreeSegments()
    ensures Parse("*.users.write") == Ok(Rbac(All, Literal("users"), Literal("write"), All))
  {
    var users, write, any := "users", "write", "*";
    ParseThree(any, users, write);
    assert any + "." + users + "." + write == "*.users.write";
  }

  /** The concrete object id the parse test uses. */
  const ObjectId: string := "5d46d74a92f36369307a312b"

  /** `Rbac.Parse` keeps a literal object verbatim. */
  lemma RbacParseLiteralObject()
    ensures Parse("*.users.write." + ObjectId) == Ok(Rbac(All, Literal("users"), Literal("write"), Literal(ObjectId)))
  {
    var users, write, any := "users", "write", "*";
    ParseFour(any, users, write, ObjectId);
    assert any + "." + users + "." + write + "." + ObjectId == "*.users.write." + ObjectId;
  }

  /** The ask `*.users.<action>.<object>` parses to its four segments. */
  lemma ParseAsk(action: string, obj: string)
    requires NoSeparator(action) && NoSeparator(obj) && action != "" && obj != ""
    ensures Parse("*.users." + action + "." + obj) == Ok(P("*", "users", action, obj))
  {
    ParseFour("*", "users", action, obj);
    assert "*.users." + action + "." + obj == "*" + "." + "users" + "." + action + "." + obj;
  }

  predicate Word(s: string) {
    s != "" && NoSeparator(s)
  }

  /** The admin role grants every action on users, whether the object asked is
      the wildcard or a concrete id such as `test_utilizer`. */
  lemma AdminGrantsUserActions(action: string, obj: string)
    requires Word(action) && Word(obj)
    ensures HasRolePermission(Admin, "*.users." + action + "." + obj) == Ok(true)
  {
    ParseAsk(action, obj);
  }

  /** The readonly role reads any user, `forbid_user_id` included. */
  lemma ReadonlyReads(obj: string)
    requires Word(obj)
    ensures HasRolePermission(Readonly, "*.users.read." + obj) == Ok(true)
  {
    ParseAsk("read", obj);
    assert "*.users.read." + obj == "*.users." + "read" + "." + obj;
    var stmts, asked := Readonly.statements, P("*", "users", "read", obj);
    assert !Applies(stmts[1], asked) && !Applies(stmts[2], asked);
    MostSpecificDecides(stmts, asked, 0);
  }

  /** The readonly role may not create, update or delete `forbid_user_id`. */
  lemma ReadonlyDeniesWrites(action: string)
    requires action == "create" || action == "update" || action == "delete"
    ensures HasRolePermission(Readonly, "*.users." + action + ".forbid_user_id") == Ok(false)
  {
    assert Parse("*.users." + action + ".forbid_user_id") == Ok(P("*", "users", action, "forbid_user_id")) by {
      ParseAsk(action, "forbid_user_id");
      assert "*.users." + action + ".forbid_user_id" == "*.users." + action + "." + "forbid_user_id";
    }
    if action == "create" {
      ReadonlyDeniesCreate();
    } else if action == "update" {
      ReadonlyDeniesUpdate();
    } else {
      ReadonlyDeniesDelete();
    }
  }

  /** No statement of `readonly` matches a create: the default deny applies. */
  lemma ReadonlyDeniesCreate()
    ensures !Decide(Readonly.statements, P("*", "users", "create", "forbid_user_id"))
  {
    var stmts, asked := Readonly.statements, P("*", "users", "create", "forbid_user_id");
    assert !Applies(stmts[0], asked) && !Applies(stmts[1], asked) && !Applies(stmts[2], asked);
    DefaultDeny(stmts, asked);
  }

  /** The forbid on update of `forbid_user_id` is the only statement of
      `readonly` that matches, so it decides. */
  lemma ReadonlyDeniesUpdate()
    ensures !Decide(Readonly.statements, P("*", "users", "update", "forbid_user_id"))
  {
    var stmts, asked := Readonly.statements, P("*", "users", "update", "forbid_user_id");
    assert !Applies(stmts[0], asked) && !Applies(stmts[2], asked);
    MostSpecificDecides(stmts, asked, 1);
  }

  /** The forbid on delete of `forbid_user_id` is the only statement of
      `readonly` that matches, so it decides. */
  lemma ReadonlyDeniesDelete()
    ensures !Decide(Readonly.statements, P("*", "users", "delete", "forbid_user_id"))
  {
    var stmts, asked := Readonly.statements, P("*", "users", "delete", "forbid_user_id");
    assert !Applies(stmts[0], asked) && !Applies(stmts[1], asked);
    MostSpecificDecides(stmts, asked, 2);
  }

  /** `restricted_user_id` reads, updates and deletes users but may not create them. */
  lemma RestrictedUserCases(action: string)
    requires action == "read" || action == "create" || action == "update" || action == "delete"
    ensures HasUserPermission(Roles, RestrictedUser, "*.users." + action + ".*") == Ok(action != "create")
  {
    assert FindRole(Roles, "admin", Membership) == Some(Admin);
    var stmts := RestrictedUser.statements + Admin.statements;
    assert EffectiveStatements(Roles, RestrictedUser) == stmts;
    ParseAsk(action, "*");
    assert "*.users." + action + ".*" == "*.users." + action + "." + "*";
    var asked := P("*", "users", action, "*");
    if action == "create" {
      DenyWinsTie(stmts, asked, 0);
    } else {
      // the user's own forbid on create is inert, so the admin role decides alone
      assert !Applies(RestrictedUser.statements[0], asked);
      NonMatchingStatementsIrrelevant(Admin.statements, RestrictedUser.statements, asked);
      MostSpecificDecides(Admin.statements, asked, 0);
    }
  }

  /** `qualified_user_id` creates users but may neither update nor delete them. */
  lemma QualifiedUserCases(action: string)
    requires action == "create" || action == "update" || action == "delete"
    ensures HasUserPermission(Roles, QualifiedUser, "*.users." + action + ".*") == Ok(action == "create")
  {
    assert FindRole(Roles, "readonly", Membership) == Some(Readonly);
    var stmts := QualifiedUser.statements + Readonly.statements;
    assert EffectiveStatements(Roles, QualifiedUser) == stmts;
    ParseAsk(action, "*");
    assert "*.users." + action + ".*" == "*.users." + action + "." + "*";
    var asked := P("*", "users", action, "*");
    assert forall i :: 0 <= i < |Readonly.statements| ==> !Applies(Readonly.statements[i], asked) by {
      assert !Applies(Readonly.statements[0], asked) && !Applies(Readonly.statements[1], asked);
      assert !Applies(Readonly.statements[2], asked);
    }
    if action == "create" {
      // no statement of the readonly role matches, so the user's own permit decides alone
      NonMatchingStatementsIrrelevant(QualifiedUser.statements, Readonly.statements, asked);
      MostSpecificDecides(QualifiedUser.statements, asked, 0);
    } else {
      DefaultDeny(stmts, asked);
    }
  }
}
