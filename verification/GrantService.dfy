/** The GRANT and REVOKE statements: who may issue them, and what they can never do. */
module GrantService {
  import opened TextCase
  import opened PrivilegeCatalog

  type Name = s: string | s != "" witness "a"

  datatype Resource = Everything | WholeDatabase(database: Name) | OneTable(database: Name, table: Name)

  /** A parsed statement; `directionFits` says whether GRANT came with TO and REVOKE with FROM. */
  datatype Request = Request(
    session: string,
    isGrant: bool,
    directionFits: bool,
    privileges: seq<string>,
    resource: Resource,
    username: string)

  /** The storage engine, as far as the checks look at it. */
  datatype Storage = Storage(isOpen: string -> bool, hasTable: (string, string) -> bool)

  predicate ValidPrivilege(p: string) {
    p in ["ALL", "SELECT", "INSERT", "UPDATE", "DELETE", "CREATE", "DROP", "CREATE_USER", "GRANT"]
  }

  function BuildGrant(req: Request): Grant {
    var privileges := UpperAll(req.privileges);
    match req.resource
    case Everything => Grant(req.username, "GLOBAL", "", "", privileges)
    case WholeDatabase(database) => Grant(req.username, "DATABASE", database, "", privileges)
    case OneTable(database, table) => Grant(req.username, "TABLE", database, table, privileges)
  }

  ghost predicate CanAdmin(c: Catalog, session: string, privilege: string) {
    session == "root" || Allowed(c, session, privilege, "", "")
  }

  /** The issuer holds every privilege the grant would pass on, and does not pass on ALL. */
  ghost predicate HoldsAll(c: Catalog, session: string, g: Grant) {
    forall p | p in g.privileges :: p != "ALL" && Allowed(c, session, p, g.database, g.table)
  }

  ghost function Decide(c: Catalog, st: Storage, req: Request): RC {
    var g := BuildGrant(req);
    if !CanAdmin(c, req.session, "GRANT") then AUTHORIZATION_DENIED
    else if !req.directionFits then INVALID_ARGUMENT
    else if g.privileges == [] || !(forall p | p in g.privileges :: ValidPrivilege(p)) then INVALID_ARGUMENT
    else if g.scope != "GLOBAL" && !(g.database in c.databases && st.isOpen(g.database)) then SCHEMA_DB_NOT_EXIST
    else if g.scope == "TABLE" && !st.hasTable(g.database, g.table) then SCHEMA_TABLE_NOT_EXIST
    else if req.isGrant && req.session != "root" && !HoldsAll(c, req.session, g) then AUTHORIZATION_DENIED
    else if req.isGrant && !HasUser(c, req.username) then USER_NOT_EXIST
    else SUCCESS
  }

  ghost function After(c: Catalog, st: Storage, req: Request): Catalog {
    if Decide(c, st, req) != SUCCESS then c
    else if req.isGrant then WithGrant(c, BuildGrant(req))
    else WithoutGrant(c, BuildGrant(req))
  }

  lemma BuiltIsNormal(req: Request)
    ensures Normal(BuildGrant(req)) == BuildGrant(req) && WellScoped(BuildGrant(req))
  {
    var g := BuildGrant(req);
    assert ToUpper("GLOBAL") == "GLOBAL" && ToUpper("DATABASE") == "DATABASE" && ToUpper("TABLE") == "TABLE";
    forall k | 0 <= k < |g.privileges| ensures ToUpper(g.privileges[k]) == g.privileges[k] {
      UpperTwice(req.privileges[k]);
    }
    assert UpperAll(g.privileges) == g.privileges;
  }

  lemma AfterKeeps(c: Catalog, st: Storage, req: Request)
    requires Inv(c)
    ensures Inv(After(c, st, req))
  {
    BuiltIsNormal(req);
    if Decide(c, st, req) == SUCCESS {
      if req.isGrant { GrantKeeps(c, BuildGrant(req)); } else { RevokeKeeps(c, BuildGrant(req)); }
    }
  }

  // ---------------------------------------------------------------- the statement

  /** The checks before the change, in the order in which they are made. */
  method Check(catalog: SystemCatalog, st: Storage, req: Request) returns (rc: RC)
    ensures Decide(catalog.View(), st, req) == if rc == SUCCESS && req.isGrant && !HasUser(catalog.View(), req.username)
                                               then USER_NOT_EXIST else rc
  {
    var admin := req.session == "root";
    if !admin {
      admin := catalog.IsAllowed(req.session, "GRANT", "", "");
    }
    if !admin {
      return AUTHORIZATION_DENIED;
    }
    if !req.directionFits {
      return INVALID_ARGUMENT;
    }
    var g := BuildGrant(req);
    if g.privileges == [] || !(forall p | p in g.privileges :: ValidPrivilege(p)) {
      return INVALID_ARGUMENT;
    }
    if g.scope != "GLOBAL" {
      if g.database !in catalog.databases || !st.isOpen(g.database) {
        return SCHEMA_DB_NOT_EXIST;
      }
      if g.scope == "TABLE" && !st.hasTable(g.database, g.table) {
        return SCHEMA_TABLE_NOT_EXIST;
      }
    }
    if req.isGrant && req.session != "root" {
      var holds := CheckHolds(catalog, req.session, g);
      if !holds {
        return AUTHORIZATION_DENIED;
      }
    }
    return SUCCESS;
  }

  /** The checks, then the change. */
  method Execute(catalog: SystemCatalog, st: Storage, req: Request, saved: bool) returns (rc: RC)
    requires Inv(catalog.View())
    modifies catalog`grants
    ensures Inv(catalog.View())
    ensures catalog.View() == After(old(catalog.View()), st, req)
    ensures var decided := Decide(old(catalog.View()), st, req);
            rc == if decided == SUCCESS && !saved then IOERR_WRITE else decided
  {
    AfterKeeps(catalog.View(), st, req);
    rc := Check(catalog, st, req);
    if rc != SUCCESS {
      return;
    }
    if req.isGrant {
      rc := catalog.GrantPrivileges(BuildGrant(req), saved);
    } else {
      rc := catalog.RevokePrivileges(BuildGrant(req), saved);
    }
  }

  method CheckHolds(catalog: SystemCatalog, session: string, g: Grant) returns (holds: bool)
    ensures holds == HoldsAll(catalog.View(), session, g)
  {
    for i := 0 to |g.privileges|
      invariant forall j | 0 <= j < i ::
                  g.privileges[j] != "ALL" && Allowed(catalog.View(), session, g.privileges[j], g.database, g.table)
    {
      var p := g.privileges[i];
      assert p in g.privileges;
      if p == "ALL" {
        return false;
      }
      var allowed := catalog.IsAllowed(session, p, g.database, g.table);
      if !allowed {
        return false;
      }
    }
    return true;
  }

  // ---------------------------------------------------------------- no amplification

  /** Some user other than root may do it. */
  ghost predicate Reachable(c: Catalog, privilege: string, database: string, table: string) {
    exists u :: u != "root" && Allowed(c, u, privilege, database, table)
  }

  /** Whoever may pass a privilege on for the resource of a grant has it wherever the grant applies. */
  lemma IssuerCovers(c: Catalog, session: string, g: Grant, p: string, database: string, table: string)
    requires Inv(c) && session != "root" && WellScoped(g) && Covers(g, database, table)
    requires ToUpper(p) != "CONNECT" && Allowed(c, session, p, g.database, g.table)
    ensures Allowed(c, session, p, database, table)
  {
    var h :| h in c.grants && h.username == session && Confers(h, ToUpper(p), g.database, g.table);
    assert Confers(h, ToUpper(p), database, table);
  }

  /** A GRANT by anyone but root gives no one a privilege that no user but root had. */
  lemma GrantDoesNotAmplify(c: Catalog, st: Storage, req: Request, p: string, database: string, table: string)
    requires Inv(c) && req.isGrant && req.session != "root" && ToUpper(p) != "CONNECT"
    requires Reachable(After(c, st, req), p, database, table)
    ensures Reachable(c, p, database, table)
  {
    var u :| u != "root" && Allowed(After(c, st, req), u, p, database, table);
    if Decide(c, st, req) == SUCCESS {
      var g := BuildGrant(req);
      BuiltIsNormal(req);
      GrantMeans(c, g, u, p, database, table);
      if !Allowed(c, u, p, database, table) {
        var upper := ToUpper(p);
        assert upper in g.privileges && Allowed(c, req.session, upper, g.database, g.table);
        UpperTwice(p);
        IssuerCovers(c, req.session, g, upper, database, table);
        assert Allowed(c, req.session, p, database, table);
      }
    }
  }

  lemma RevokeDoesNotAmplify(c: Catalog, st: Storage, req: Request, p: string, database: string, table: string)
    requires !req.isGrant && Reachable(After(c, st, req), p, database, table)
    ensures Reachable(c, p, database, table)
  {
    var u :| u != "root" && Allowed(After(c, st, req), u, p, database, table);
    if Decide(c, st, req) == SUCCESS {
      RevokeOnlyShrinks(c, BuildGrant(req), u, p, database, table);
    }
  }

  // ---------------------------------------------------------------- runs

  /** A GRANT or REVOKE carries the storage it meets, since tables and databases come and go between statements. */
  datatype Event =
    | Privileges(req: Request, st: Storage)
    | CreateUser(username: string, passwordSet: bool)
    | DropUser(username: string)
    | AddDatabase(database: string)
    | RemoveDatabase(database: string)

  /** Every management statement that touches the catalog; the events of this run are not GRANTs by root. */
  ghost function Next(c: Catalog, ev: Event): Catalog {
    match ev
    case Privileges(req, st) => After(c, st, req)
    case CreateUser(username, passwordSet) =>
      if !ValidIdentifier(username) || HasUser(c, username) then c
      else if passwordSet then WithUser(c, username) else c.(nextUserId := c.nextUserId + 1)
    case DropUser(username) => if username != "root" && HasUser(c, username) then WithoutUser(c, username) else c
    case AddDatabase(database) =>
      if ValidIdentifier(database) && database !in c.databases then c.(databases := c.databases + [database]) else c
    case RemoveDatabase(database) =>
      if database != "sys" && database in c.databases then WithoutDatabase(c, database) else c
  }

  predicate NotRootGrant(ev: Event) {
    ev.Privileges? && ev.req.isGrant ==> ev.req.session != "root"
  }

  lemma NextKeeps(c: Catalog, ev: Event)
    requires Inv(c)
    ensures Inv(Next(c, ev))
  {
    match ev
    case Privileges(req, st) => AfterKeeps(c, st, req);
    case CreateUser(username, _) =>
      NumberSkipped(c);
      if !HasUser(c, username) { CreateUserKeeps(c, username); }
    case DropUser(username) => DropUserKeeps(c, username);
    case AddDatabase(database) =>
      if ValidIdentifier(database) && database !in c.databases { AddDatabaseKeeps(c, database); }
    case RemoveDatabase(database) => RemoveDatabaseKeeps(c, database);
  }

  lemma FewerGrants(c: Catalog, c': Catalog, p: string, database: string, table: string)
    requires forall g | g in c'.grants :: g in c.grants
    requires Reachable(c', p, database, table)
    ensures Reachable(c, p, database, table)
  {
    var u :| u != "root" && Allowed(c', u, p, database, table);
    var g :| g in c'.grants && g.username == u && Confers(g, ToUpper(p), database, table);
    assert Allowed(c, u, p, database, table);
  }

  lemma NextDoesNotAmplify(c: Catalog, ev: Event, p: string, database: string, table: string)
    requires Inv(c) && NotRootGrant(ev) && ToUpper(p) != "CONNECT"
    requires Reachable(Next(c, ev), p, database, table)
    ensures Reachable(c, p, database, table)
  {
    match ev
    case Privileges(req, st) =>
      if req.isGrant {
        GrantDoesNotAmplify(c, st, req, p, database, table);
      } else {
        RevokeDoesNotAmplify(c, st, req, p, database, table);
      }
    case DropUser(username) =>
      KeepIn(c.grants, NotHeldBy(username));
      FewerGrants(c, Next(c, ev), p, database, table);
    case RemoveDatabase(name) =>
      KeepIn(c.grants, NotInside(name));
      FewerGrants(c, Next(c, ev), p, database, table);
    case _ =>
      FewerGrants(c, Next(c, ev), p, database, table);
  }

  ghost function Run(c: Catalog, events: seq<Event>): Catalog
    decreases |events|
  {
    if events == [] then c else Run(Next(c, events[0]), events[1..])
  }

  /** Over any run of statements without a GRANT by root, what users other than root may do never grows,
      for every privilege but CONNECT. */
  lemma {:induction false} NoAmplification(c: Catalog, events: seq<Event>, p: string, database: string, table: string)
    requires Inv(c) && (forall ev | ev in events :: NotRootGrant(ev)) && ToUpper(p) != "CONNECT"
    ensures Inv(Run(c, events))
    ensures Reachable(Run(c, events), p, database, table) ==> Reachable(c, p, database, table)
    decreases |events|
  {
    if events == [] {
    } else {
      var c1 := Next(c, events[0]);
      NextKeeps(c, events[0]);
      NoAmplification(c1, events[1..], p, database, table);
      if Reachable(c1, p, database, table) { NextDoesNotAmplify(c, events[0], p, database, table); }
    }
  }

  // ---------------------------------------------------------------- the exception: CONNECT

  /** A successful GRANT by anyone but root opens a database for connecting exactly when it names the
      database, or a table in it, and its receiver is not root. */
  lemma ConnectGrowsExactly(c: Catalog, st: Storage, req: Request, database: string, table: string)
    requires Inv(c) && req.isGrant && req.session != "root" && Decide(c, st, req) == SUCCESS
    ensures Reachable(After(c, st, req), "CONNECT", database, table) <==>
            || Reachable(c, "CONNECT", database, table)
            || (req.username != "root" && !req.resource.Everything? && req.resource.database == database)
  {
    var g := BuildGrant(req);
    BuiltIsNormal(req);
    assert ToUpper("CONNECT") == "CONNECT";
    assert "CONNECT" !in g.privileges && "ALL" !in g.privileges by {
      assert !ValidPrivilege("CONNECT");
    }
    forall u ensures Allowed(After(c, st, req), u, "CONNECT", database, table) <==>
                     || Allowed(c, u, "CONNECT", database, table)
                     || (u == req.username && Confers(g, "CONNECT", database, table)) {
      GrantMeans(c, g, u, "CONNECT", database, table);
    }
    if Confers(g, "CONNECT", database, table) {
      assert Allowed(After(c, st, req), req.username, "CONNECT", database, table);
    }
    if Reachable(c, "CONNECT", database, table) {
      var u :| u != "root" && Allowed(c, u, "CONNECT", database, table);
      assert Allowed(After(c, st, req), u, "CONNECT", database, table);
    }
  }

  /** Ann may read everything and grant; Bob has nothing. */
  function ShopCatalog(): Catalog {
    Catalog(4, [User(1, "root"), User(2, "ann"), User(3, "bob")], ["sys", "shop"],
            [Grant("ann", "GLOBAL", "", "", ["SELECT", "GRANT"])])
  }

  function LendShop(): Request {
    Request("ann", true, true, ["SELECT"], WholeDatabase("shop"), "bob")
  }

  lemma ShopIsConsistent()
    ensures Inv(ShopCatalog()) && HasUser(ShopCatalog(), "bob")
  {
    var c := ShopCatalog();
    assert c.users[1] in c.users && c.users[2] in c.users;
    assert HasUser(c, "ann");
  }

  lemma UpperWords()
    ensures ToUpper("SELECT") == "SELECT" && ToUpper("GRANT") == "GRANT" && ToUpper("CONNECT") == "CONNECT"
  {
  }

  lemma AnnMay()
    ensures Allowed(ShopCatalog(), "ann", "GRANT", "", "") && Allowed(ShopCatalog(), "ann", "SELECT", "shop", "")
  {
    UpperWords();
    var lender := ShopCatalog().grants[0];
    assert lender in ShopCatalog().grants;
    assert lender.privileges[0] == "SELECT" && lender.privileges[1] == "GRANT";
    assert Confers(lender, "GRANT", "", "") && Confers(lender, "SELECT", "shop", "");
  }

  lemma LendShopPrivileges()
    ensures BuildGrant(LendShop()).privileges == ["SELECT"] && ValidPrivilege("SELECT")
  {
    UpperWords();
  }

  lemma AnnHoldsAll()
    ensures HoldsAll(ShopCatalog(), "ann", BuildGrant(LendShop()))
  {
    AnnMay();
    LendShopPrivileges();
  }

  lemma LendShopSucceeds(st: Storage)
    requires st.isOpen("shop")
    ensures Decide(ShopCatalog(), st, LendShop()) == SUCCESS
  {
    var c := ShopCatalog();
    assert CanAdmin(c, "ann", "GRANT") by { AnnMay(); }
    assert HasUser(c, "bob") by { ShopIsConsistent(); }
    assert c.databases[1] == "shop";
    AnnHoldsAll();
    LendShopPrivileges();
  }

  lemma NobodyConnects()
    ensures !Reachable(ShopCatalog(), "CONNECT", "shop", "")
  {
    UpperWords();
    forall g | g in ShopCatalog().grants ensures !Confers(g, "CONNECT", "shop", "") {
      assert g == ShopCatalog().grants[0];
    }
  }

  /** So CONNECT can be amplified: Ann cannot connect to the shop, nobody but root can, and her GRANT
      lets Bob. */
  lemma ConnectExample(st: Storage)
    requires st.isOpen("shop")
    ensures Inv(ShopCatalog()) && LendShop().session != "root"
    ensures !Reachable(ShopCatalog(), "CONNECT", "shop", "")
    ensures Reachable(After(ShopCatalog(), st, LendShop()), "CONNECT", "shop", "")
  {
    ShopIsConsistent();
    LendShopSucceeds(st);
    NobodyConnects();
    ConnectGrowsExactly(ShopCatalog(), st, LendShop(), "shop", "");
  }
}
