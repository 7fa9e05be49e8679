/** What the catalog's changes and the GRANT and REVOKE statements mean for users, told from the fields of the grants
    and the words of the statement. */
module PrivilegeMeaning {
  import opened TextCase
  import opened PrivilegeCatalog
  import opened GrantService

  // ---------------------------------------------------------------- isolation

  /** The grant is on another database, or on another table. */
  predicate OnOther(g: Grant, database: string, table: string) {
    || (g.scope == "DATABASE" && g.database != database)
    || (g.scope == "TABLE" && (g.database != database || g.table != table))
  }

  /** Grants on other databases and other tables have no say. */
  lemma Isolation(c: Catalog, c': Catalog, username: string, privilege: string, database: string, table: string)
    requires forall g: Grant | !OnOther(g, database, table) :: g in c.grants <==> g in c'.grants
    requires ToUpper(privilege) != "CONNECT"
    ensures Allowed(c, username, privilege, database, table) <==> Allowed(c', username, privilege, database, table)
  {
    if username != "root" {
      AllowedExactly(c, username, privilege, database, table);
      AllowedExactly(c', username, privilege, database, table);
    }
  }

  /** Nor has anybody else's. */
  lemma OthersGrants(c: Catalog, c': Catalog, username: string, privilege: string, database: string, table: string)
    requires forall g: Grant | g.username == username :: g in c.grants <==> g in c'.grants
    ensures Allowed(c, username, privilege, database, table) <==> Allowed(c', username, privilege, database, table)
  {
  }

  // ---------------------------------------------------------------- upper and lower case

  /** Small and capital letters make no difference to a request, ... */
  lemma RequestIgnoresCase(c: Catalog, username: string, p: string, q: string, database: string, table: string)
    requires ToUpper(p) == ToUpper(q)
    ensures Allowed(c, username, p, database, table) <==> Allowed(c, username, q, database, table)
  {
  }

  /** ... to a grant, or to a revoke. */
  lemma ChangeIgnoresCase(c: Catalog, g: Grant, h: Grant)
    requires h == g.(scope := h.scope, privileges := h.privileges)
    requires ToUpper(g.scope) == ToUpper(h.scope) && UpperAll(g.privileges) == UpperAll(h.privileges)
    ensures WithGrant(c, g) == WithGrant(c, h) && WithoutGrant(c, g) == WithoutGrant(c, h)
  {
    assert Normal(g) == Normal(h);
    assert ReducedAll(c.grants, g) == ReducedAll(c.grants, h);
  }

  // ---------------------------------------------------------------- users and databases

  lemma CreateUserExactly(c: Catalog, username: string, v: string, p: string, database: string, table: string)
    ensures var c' := WithUser(c, username);
            && (HasUser(c', v) <==> HasUser(c, v) || v == username)
            && User(c.nextUserId, username) in c'.users && c'.databases == c.databases
            && (Allowed(c', v, p, database, table) <==> Allowed(c, v, p, database, table))
  {
    var c' := WithUser(c, username);
    assert User(c.nextUserId, username) in c'.users;
    if HasUser(c, v) { HasUserAfter(c, c', v); }
  }

  /** Dropping a user takes their name and everything they may do, and nothing from anybody else. */
  lemma DropUserExactly(c: Catalog, username: string, v: string, p: string, database: string, table: string)
    ensures var c' := WithoutUser(c, username);
            && (HasUser(c', v) <==> HasUser(c, v) && v != username)
            && c'.databases == c.databases && c'.nextUserId == c.nextUserId
            && (Allowed(c', v, p, database, table) <==>
                v == "root" || (v != username && Allowed(c, v, p, database, table)))
  {
    var c' := WithoutUser(c, username);
    KeepIn(c.users, NotNamed(username));
    KeepIn(c.grants, NotHeldBy(username));
    if HasUser(c, v) && v != username { HasUserAfter(c, c', v); }
    if v != username { OthersGrants(c, c', v, p, database, table); }
  }

  /** Removing a database takes away what grants inside it gave, and nothing else. */
  lemma RemoveDatabaseExactly(c: Catalog, name: string, v: string, p: string, database: string, table: string)
    requires Inv(c) && name in c.databases && v != "root" && ToUpper(p) != "CONNECT"
    ensures var c' := WithoutDatabase(c, name);
            && (database in c'.databases <==> database in c.databases && database != name)
            && c'.users == c.users
            && (database != name ==>
                  (Allowed(c', v, p, database, table) <==> Allowed(c, v, p, database, table)))
            && (database == name ==>
                  (Allowed(c', v, p, database, table) <==>
                   exists g :: g in c.grants && g.username == v && g.scope == "GLOBAL"
                               && ("ALL" in g.privileges || ToUpper(p) in g.privileges)))
  {
    var c' := WithoutDatabase(c, name);
    KeepIn(c.databases, NotIn([name]));
    KeepIn(c.grants, NotInside(name));
    AllowedExactly(c', v, p, database, table);
    if database != name { Isolation(c, c', v, p, database, table); }
  }

  lemma AddDatabaseExactly(c: Catalog, name: string, v: string, p: string, database: string, table: string)
    ensures var c' := c.(databases := c.databases + [name]);
            && (database in c'.databases <==> database in c.databases || database == name)
            && (Allowed(c', v, p, database, table) <==> Allowed(c, v, p, database, table))
  {
  }

  // ---------------------------------------------------------------- the statements

  /** The resource of a statement takes in the place. */
  predicate On(resource: Resource, database: string, table: string) {
    match resource
    case Everything => true
    case WholeDatabase(d) => d == database
    case OneTable(d, t) => d == database && t == table
  }

  /** The grant is on exactly that resource. */
  predicate KeptFor(g: Grant, resource: Resource) {
    match resource
    case Everything => g.scope == "GLOBAL" && g.database == "" && g.table == ""
    case WholeDatabase(d) => g.scope == "DATABASE" && g.database == d && g.table == ""
    case OneTable(d, t) => g.scope == "TABLE" && g.database == d && g.table == t
  }

  ghost predicate Named(req: Request, p: string) {
    exists k :: 0 <= k < |req.privileges| && ToUpper(req.privileges[k]) == ToUpper(p)
  }

  lemma NamedIsBuilt(req: Request, p: string)
    ensures Named(req, p) <==> ToUpper(p) in BuildGrant(req).privileges
  {
    var g := BuildGrant(req);
    if ToUpper(p) in g.privileges {
      var k :| 0 <= k < |g.privileges| && g.privileges[k] == ToUpper(p);
    }
    if Named(req, p) {
      var k :| 0 <= k < |req.privileges| && ToUpper(req.privileges[k]) == ToUpper(p);
      assert g.privileges[k] == ToUpper(p);
    }
  }

  lemma BuiltConfers(req: Request, p: string, database: string, table: string)
    requires ToUpper(p) != "CONNECT"
    ensures Confers(Normal(BuildGrant(req)), ToUpper(p), database, table) <==>
            On(req.resource, database, table) && (Named(req, p) || Named(req, "ALL"))
  {
    BuiltIsNormal(req);
    NamedIsBuilt(req, p);
    NamedIsBuilt(req, "ALL");
    assert ToUpper("ALL") == "ALL";
  }

  /** A GRANT gives its user the privileges it names, on the resource it names, and nothing else to anybody. */
  lemma GrantExactly(c: Catalog, st: Storage, req: Request, v: string, p: string, database: string, table: string)
    requires req.isGrant && Decide(c, st, req) == SUCCESS && ToUpper(p) != "CONNECT"
    ensures Allowed(After(c, st, req), v, p, database, table) <==>
            || Allowed(c, v, p, database, table)
            || (v == req.username && On(req.resource, database, table) && (Named(req, p) || Named(req, "ALL")))
  {
    GrantMeans(c, BuildGrant(req), v, p, database, table);
    BuiltConfers(req, p, database, table);
  }

  /** After a REVOKE a grant still gives what it gave, unless it is its user's, on exactly its resource, and what it
      gave by is named. */
  ghost predicate Left(req: Request, g: Grant, held: string) {
    held in g.privileges && !(g.username == req.username && KeptFor(g, req.resource) && Named(req, held))
  }

  lemma KeyIsResource(c: Catalog, req: Request, g: Grant)
    requires Inv(c) && g in c.grants
    ensures SameKey(g, Normal(BuildGrant(req))) <==> g.username == req.username && KeptFor(g, req.resource)
  {
    BuiltIsNormal(req);
  }

  lemma LeftExactly(c: Catalog, req: Request, g: Grant, held: string)
    requires Inv(c) && g in c.grants && ToUpper(held) == held
    ensures held in Reduced(g, BuildGrant(req)).privileges <==> Left(req, g, held)
  {
    var input := BuildGrant(req);
    KeyIsResource(c, req, g);
    NamedIsBuilt(req, held);
    BuiltIsNormal(req);
    KeepIn(g.privileges, NotIn(UpperAll(input.privileges)));
  }

  lemma RevokeExactly(c: Catalog, st: Storage, req: Request, v: string, p: string, database: string, table: string)
    requires Inv(c) && !req.isGrant && Decide(c, st, req) == SUCCESS && ToUpper(p) != "CONNECT" && v != "root"
    ensures Allowed(After(c, st, req), v, p, database, table) <==>
            exists g :: g in c.grants && g.username == v && Gives(req, g, p, database, table)
  {
    var input, upper := BuildGrant(req), ToUpper(p);
    RevokeMeans(c, input, v, p, database, table);
    forall g | g in c.grants
      ensures StillConfers(g, input, upper, database, table) <==> Gives(req, g, p, database, table)
    {
      GivesExactly(c, req, g, p, database, table);
    }
  }

  lemma GivesExactly(c: Catalog, req: Request, g: Grant, p: string, database: string, table: string)
    requires Inv(c) && g in c.grants && ToUpper(p) != "CONNECT"
    ensures StillConfers(g, BuildGrant(req), ToUpper(p), database, table) <==> Gives(req, g, p, database, table)
  {
    UpperTwice(p);
    assert ToUpper("ALL") == "ALL";
    LeftExactly(c, req, g, ToUpper(p));
    LeftExactly(c, req, g, "ALL");
  }

  ghost predicate Gives(req: Request, g: Grant, p: string, database: string, table: string) {
    && (Left(req, g, "ALL") || Left(req, g, ToUpper(p)))
    && (|| g.scope == "GLOBAL"
        || (g.scope == "DATABASE" && g.database == database)
        || (g.scope == "TABLE" && g.database == database && g.table == table))
  }

  // ---------------------------------------------------------------- who may make them

  /** Root, or a user with a global grant of GRANT or ALL. */
  ghost predicate Administrator(c: Catalog, session: string) {
    session == "root" ||
    exists g :: g in c.grants && g.username == session && g.scope == "GLOBAL"
                && ("ALL" in g.privileges || "GRANT" in g.privileges)
  }

  lemma AdminExactly(c: Catalog, session: string)
    requires Inv(c)
    ensures CanAdmin(c, session, "GRANT") <==> Administrator(c, session)
  {
    UpperWords();
    if session != "root" { AllowedExactly(c, session, "GRANT", "", ""); }
  }

  /** The privileges are known words, and there is one. */
  ghost predicate Worded(req: Request) {
    && req.directionFits && req.privileges != []
    && forall k | 0 <= k < |req.privileges| ::
         ToUpper(req.privileges[k]) in
           {"ALL", "SELECT", "INSERT", "UPDATE", "DELETE", "CREATE", "DROP", "CREATE_USER", "GRANT"}
  }

  ghost predicate Present(c: Catalog, st: Storage, resource: Resource) {
    match resource
    case Everything => true
    case WholeDatabase(d) => d in c.databases && st.isOpen(d)
    case OneTable(d, t) => d in c.databases && st.isOpen(d) && st.hasTable(d, t)
  }

  /** The session may do itself what it passes on, on the whole resource, and does not pass on ALL. */
  ghost predicate MayPassOn(c: Catalog, req: Request) {
    forall k | 0 <= k < |req.privileges| ::
      && ToUpper(req.privileges[k]) != "ALL"
      && match req.resource
         case Everything => Allowed(c, req.session, req.privileges[k], "", "")
         case WholeDatabase(d) => Allowed(c, req.session, req.privileges[k], d, "")
         case OneTable(d, t) => Allowed(c, req.session, req.privileges[k], d, t)
  }

  lemma WordedIsValid(req: Request)
    ensures Worded(req) <==>
            var g := BuildGrant(req);
            req.directionFits && g.privileges != [] && forall p | p in g.privileges :: ValidPrivilege(p)
  {
    var g := BuildGrant(req);
    forall k | 0 <= k < |req.privileges|
      ensures g.privileges[k] == ToUpper(req.privileges[k]) && g.privileges[k] in g.privileges
    {
    }
  }

  lemma PassOnIsHolds(c: Catalog, req: Request)
    ensures MayPassOn(c, req) <==> HoldsAll(c, req.session, BuildGrant(req))
  {
    var g := BuildGrant(req);
    forall k | 0 <= k < |req.privileges|
      ensures g.privileges[k] == ToUpper(req.privileges[k]) && g.privileges[k] in g.privileges
      ensures Allowed(c, req.session, req.privileges[k], g.database, g.table) <==>
              Allowed(c, req.session, g.privileges[k], g.database, g.table)
    {
      UpperTwice(req.privileges[k]);
      RequestIgnoresCase(c, req.session, req.privileges[k], g.privileges[k], g.database, g.table);
    }
  }

  /** A statement is carried out exactly for an administrator, with known privileges on a resource that is there; and a
      GRANT only to an existing user, by root or by somebody who may do as much. */
  lemma SucceedsExactly(c: Catalog, st: Storage, req: Request)
    requires Inv(c)
    ensures Decide(c, st, req) == SUCCESS <==>
            && Administrator(c, req.session) && Worded(req) && Present(c, st, req.resource)
            && (req.isGrant ==> (req.session == "root" || MayPassOn(c, req)) && HasUser(c, req.username))
  {
    AdminExactly(c, req.session);
    WordedIsValid(req);
    PassOnIsHolds(c, req);
  }

  /** Nobody but an administrator changes anything. */
  lemma AdministratorsOnly(c: Catalog, st: Storage, req: Request)
    requires Inv(c) && After(c, st, req) != c
    ensures Administrator(c, req.session)
  {
    SucceedsExactly(c, st, req);
  }
}
