/** Users, databases and privilege grants of the server. */
module PrivilegeCatalog {
  import opened TextCase

  datatype RC =
    | SUCCESS | INVALID_ARGUMENT | USER_EXIST | USER_NOT_EXIST | AUTHORIZATION_DENIED
    | SCHEMA_DB_EXIST | SCHEMA_DB_NOT_EXIST | SCHEMA_TABLE_NOT_EXIST | IOERR_WRITE | INTERNAL

  datatype User = User(id: nat, username: string)

  datatype Grant = Grant(username: string, scope: string, database: string, table: string, privileges: seq<string>)

  datatype Catalog = Catalog(nextUserId: nat, users: seq<User>, databases: seq<string>, grants: seq<Grant>)

  // ---------------------------------------------------------------- filtering

  function Keep<T>(s: seq<T>, p: T -> bool): seq<T> {
    if s == [] then [] else (if p(s[0]) then [s[0]] else []) + Keep(s[1..], p)
  }

  lemma {:induction false} KeepIn<T>(s: seq<T>, p: T -> bool)
    ensures forall x :: x in Keep(s, p) <==> x in s && p(x)
  {
    if s == [] {
    } else {
      KeepIn(s[1..], p);
      assert forall x :: x in s <==> x == s[0] || x in s[1..];
    }
  }

  lemma {:induction false} KeptFrom<T>(s: seq<T>, p: T -> bool, j: nat) returns (k: nat)
    requires j < |Keep(s, p)|
    ensures k < |s| && s[k] == Keep(s, p)[j] && p(s[k])
  {
    if p(s[0]) && j == 0 {
      k := 0;
    } else {
      var k' := KeptFrom(s[1..], p, if p(s[0]) then j - 1 else j);
      k := k' + 1;
    }
  }

  ghost predicate Pairwise<T>(s: seq<T>, r: (T, T) -> bool) {
    forall i, j | 0 <= i < j < |s| :: r(s[i], s[j])
  }

  lemma {:induction false} KeepPairwise<T>(s: seq<T>, p: T -> bool, r: (T, T) -> bool)
    requires Pairwise(s, r)
    ensures Pairwise(Keep(s, p), r)
  {
    if s == [] {
    } else {
      assert Pairwise(s[1..], r);
      KeepPairwise(s[1..], p, r);
      var rest := Keep(s[1..], p);
      forall j | 0 <= j < |rest| ensures r(s[0], rest[j]) {
        var k := KeptFrom(s[1..], p, j);
        assert s[k + 1] == rest[j];
      }
    }
  }

  function NotIn<T(==)>(xs: seq<T>): T -> bool {
    x => x !in xs
  }

  function NotNamed(username: string): User -> bool {
    (u: User) => u.username != username
  }

  function NotHeldBy(username: string): Grant -> bool {
    (g: Grant) => g.username != username
  }

  function NotInside(database: string): Grant -> bool {
    (g: Grant) => g.database != database
  }

  function NotEmpty(): Grant -> bool {
    (g: Grant) => g.privileges != []
  }

  // ---------------------------------------------------------------- who may do what

  predicate HasUser(c: Catalog, username: string) {
    exists u :: u in c.users && u.username == username
  }

  predicate Covers(g: Grant, database: string, table: string) {
    || g.scope == "GLOBAL"
    || (g.scope == "DATABASE" && g.database == database)
    || (g.scope == "TABLE" && g.database == database && g.table == table)
  }

  /** The grant allows the request; any grant inside a database allows connecting to it. */
  predicate Confers(g: Grant, requested: string, database: string, table: string) {
    || (requested == "CONNECT" && g.database == database && (g.scope == "DATABASE" || g.scope == "TABLE"))
    || (Covers(g, database, table) && ("ALL" in g.privileges || requested in g.privileges))
  }

  ghost predicate Allowed(c: Catalog, username: string, privilege: string, database: string, table: string) {
    username == "root" ||
    exists g :: g in c.grants && g.username == username && Confers(g, ToUpper(privilege), database, table)
  }

  /** For users other than root and privileges other than CONNECT: a grant of the user on everything, on the database,
      or on the table in the database, with the privilege or ALL. */
  lemma AllowedExactly(c: Catalog, username: string, privilege: string, database: string, table: string)
    requires username != "root" && ToUpper(privilege) != "CONNECT"
    ensures Allowed(c, username, privilege, database, table) <==>
            exists g :: g in c.grants && g.username == username
                        && ("ALL" in g.privileges || ToUpper(privilege) in g.privileges)
                        && (|| g.scope == "GLOBAL"
                            || (g.scope == "DATABASE" && g.database == database)
                            || (g.scope == "TABLE" && g.database == database && g.table == table))
  {
  }

  /** CONNECT takes any grant inside the database, or a global one of ALL or CONNECT. */
  lemma ConnectExactly(c: Catalog, username: string, database: string, table: string)
    requires username != "root"
    ensures Allowed(c, username, "CONNECT", database, table) <==>
            exists g :: g in c.grants && g.username == username
                        && (|| (g.database == database && (g.scope == "DATABASE" || g.scope == "TABLE"))
                            || (g.scope == "GLOBAL" && ("ALL" in g.privileges || "CONNECT" in g.privileges)))
  {
    assert ToUpper("CONNECT") == "CONNECT";
  }

  // ---------------------------------------------------------------- changes

  predicate SameKey(g: Grant, h: Grant) {
    g.username == h.username && g.scope == h.scope && g.database == h.database && g.table == h.table
  }

  function UpperAll(s: seq<string>): (r: seq<string>)
    ensures |r| == |s| && forall k | 0 <= k < |s| :: r[k] == ToUpper(s[k])
  {
    seq(|s|, k requires 0 <= k < |s| => ToUpper(s[k]))
  }

  function Normal(g: Grant): Grant {
    g.(scope := ToUpper(g.scope), privileges := UpperAll(g.privileges))
  }

  /** The privileges with the missing ones appended. */
  function Merge(have: seq<string>, more: seq<string>): seq<string>
    decreases |more|
  {
    if more == [] then have
    else Merge(if more[0] in have then have else have + [more[0]], more[1..])
  }

  function FindKey(grants: seq<Grant>, g: Grant): (i: nat)
    ensures i <= |grants|
    ensures i < |grants| ==> SameKey(grants[i], g)
    ensures forall j | 0 <= j < i :: !SameKey(grants[j], g)
  {
    if grants == [] || SameKey(grants[0], g) then 0 else 1 + FindKey(grants[1..], g)
  }

  function WithGrant(c: Catalog, input: Grant): Catalog {
    var g := Normal(input);
    var i := FindKey(c.grants, g);
    if i == |c.grants| then c.(grants := c.grants + [g])
    else c.(grants := c.grants[i := c.grants[i].(privileges := Merge(c.grants[i].privileges, g.privileges))])
  }

  function Minus(privileges: seq<string>, less: seq<string>): seq<string> {
    Keep(privileges, NotIn(less))
  }

  /** The grant after a revoke, possibly empty. */
  function Reduced(g: Grant, input: Grant): Grant {
    if SameKey(g, Normal(input)) then g.(privileges := Minus(g.privileges, UpperAll(input.privileges))) else g
  }

  function ReducedAll(grants: seq<Grant>, input: Grant): (r: seq<Grant>)
    ensures |r| == |grants| && forall k | 0 <= k < |grants| :: r[k] == Reduced(grants[k], input)
  {
    seq(|grants|, k requires 0 <= k < |grants| => Reduced(grants[k], input))
  }

  function WithoutGrant(c: Catalog, input: Grant): Catalog {
    c.(grants := Keep(ReducedAll(c.grants, input), NotEmpty()))
  }

  function WithUser(c: Catalog, username: string): Catalog {
    c.(nextUserId := c.nextUserId + 1, users := c.users + [User(c.nextUserId, username)])
  }

  function WithoutUser(c: Catalog, username: string): Catalog {
    c.(users := Keep(c.users, NotNamed(username)), grants := Keep(c.grants, NotHeldBy(username)))
  }

  function WithoutDatabase(c: Catalog, database: string): Catalog {
    c.(databases := Keep(c.databases, NotIn([database])), grants := Keep(c.grants, NotInside(database)))
  }

  // ---------------------------------------------------------------- what every change keeps

  /** A grant as the service builds it: names are given exactly where the scope needs them. */
  predicate WellScoped(g: Grant) {
    || (g.scope == "GLOBAL" && g.database == "" && g.table == "")
    || (g.scope == "DATABASE" && g.database != "" && g.table == "")
    || (g.scope == "TABLE" && g.database != "" && g.table != "")
  }

  ghost predicate Inv(c: Catalog) {
    && Pairwise(c.users, (u: User, v: User) => u.username != v.username && u.id != v.id)
    && (forall u | u in c.users :: u.id < c.nextUserId)
    && Pairwise(c.databases, (d: string, e: string) => d != e)
    && "" !in c.databases
    && Pairwise(c.grants, (g: Grant, h: Grant) => !SameKey(g, h))
    && (forall g | g in c.grants :: HasUser(c, g.username) && WellScoped(g) && g.privileges != [])
  }

  lemma {:induction false} MergeIn(have: seq<string>, more: seq<string>)
    ensures forall p :: p in Merge(have, more) <==> p in have || p in more
    decreases |more|
  {
    if more == [] {
    } else {
      MergeIn(if more[0] in have then have else have + [more[0]], more[1..]);
      assert forall p :: p in more <==> p == more[0] || p in more[1..];
    }
  }

  ghost predicate NoRepeats(s: seq<string>) {
    forall i, j | 0 <= i < j < |s| :: s[i] != s[j]
  }

  /** Merging keeps what is there in its place and repeats nothing. */
  lemma {:induction false} MergeRepeatsNothing(have: seq<string>, more: seq<string>)
    requires NoRepeats(have)
    ensures have <= Merge(have, more) && NoRepeats(Merge(have, more))
    decreases |more|
  {
    if more == [] {
    } else {
      MergeRepeatsNothing(if more[0] in have then have else have + [more[0]], more[1..]);
    }
  }

  /** Granting adds exactly what the grant confers, to its user, and nothing else; merging into an existing
      grant means the same as keeping both. */
  lemma GrantMeans(c: Catalog, input: Grant, username: string, privilege: string, database: string, table: string)
    ensures Allowed(WithGrant(c, input), username, privilege, database, table) <==>
            || Allowed(c, username, privilege, database, table)
            || (username == input.username && Confers(Normal(input), ToUpper(privilege), database, table))
  {
    var g, p := Normal(input), ToUpper(privilege);
    var i := FindKey(c.grants, g);
    var c' := WithGrant(c, input);
    if i == |c.grants| {
      assert forall h :: h in c'.grants <==> h in c.grants || h == g;
    } else {
      var before, merged := c.grants[i], c'.grants[i];
      MergeIn(before.privileges, g.privileges);
      assert Confers(merged, p, database, table) <==>
             Confers(before, p, database, table) || Confers(g, p, database, table);
      forall h | h in c.grants && h != before ensures h in c'.grants {
        var k :| 0 <= k < |c.grants| && c.grants[k] == h;
        assert c'.grants[k] == h;
      }
      forall h | h in c'.grants && h != merged ensures h in c.grants {
        var k :| 0 <= k < |c'.grants| && c'.grants[k] == h;
      }
      assert before in c.grants && merged in c'.grants;
    }
  }

  /** Every grant left by a revoke comes from one that had at least its privileges. */
  lemma ReducedFrom(c: Catalog, input: Grant, h: Grant) returns (g: Grant)
    requires h in WithoutGrant(c, input).grants
    ensures g in c.grants && h == g.(privileges := h.privileges)
    ensures forall p | p in h.privileges :: p in g.privileges
  {
    var all := ReducedAll(c.grants, input);
    KeepIn(all, NotEmpty());
    var k :| 0 <= k < |all| && all[k] == h;
    g := c.grants[k];
    KeepIn(g.privileges, NotIn(UpperAll(input.privileges)));
  }

  /** Revoking leaves every grant at most what it conferred before. */
  lemma RevokeOnlyShrinks(c: Catalog, input: Grant, username: string, privilege: string,
                          database: string, table: string)
    requires Allowed(WithoutGrant(c, input), username, privilege, database, table)
    ensures Allowed(c, username, privilege, database, table)
  {
    if username != "root" {
      var h :| h in WithoutGrant(c, input).grants && h.username == username
               && Confers(h, ToUpper(privilege), database, table);
      var g := ReducedFrom(c, input, h);
      assert g in c.grants && Confers(g, ToUpper(privilege), database, table);
    }
  }

  /** After a revoke no grant with its key holds a revoked privilege. */
  lemma RevokeTakesAway(c: Catalog, input: Grant, g: Grant, k: nat)
    requires g in WithoutGrant(c, input).grants && SameKey(g, Normal(input)) && k < |input.privileges|
    ensures ToUpper(input.privileges[k]) !in g.privileges
  {
    var all := ReducedAll(c.grants, input);
    KeepIn(all, NotEmpty());
    var i :| 0 <= i < |all| && all[i] == g;
    KeepIn(c.grants[i].privileges, NotIn(UpperAll(input.privileges)));
    assert UpperAll(input.privileges)[k] in UpperAll(input.privileges);
  }

  /** What a grant still confers after a revoke. */
  ghost predicate StillConfers(g: Grant, input: Grant, requested: string, database: string, table: string) {
    var h := Reduced(g, input);
    h.privileges != [] && Confers(h, requested, database, table)
  }

  /** The grants left by a revoke are the reduced ones that are not empty. */
  lemma ReducedStays(c: Catalog, input: Grant, g: Grant)
    requires g in c.grants && Reduced(g, input).privileges != []
    ensures Reduced(g, input) in WithoutGrant(c, input).grants
  {
    var all := ReducedAll(c.grants, input);
    KeepIn(all, NotEmpty());
    var k :| 0 <= k < |c.grants| && c.grants[k] == g;
    assert all[k] == Reduced(g, input) && all[k] in all;
  }

  lemma LeftIsReduced(c: Catalog, input: Grant, h: Grant) returns (g: Grant)
    requires h in WithoutGrant(c, input).grants
    ensures g in c.grants && h == Reduced(g, input) && h.privileges != []
  {
    var all := ReducedAll(c.grants, input);
    KeepIn(all, NotEmpty());
    var k :| 0 <= k < |all| && all[k] == h;
    g := c.grants[k];
  }

  /** Revoking leaves exactly what the reduced grants confer. */
  lemma RevokeMeans(c: Catalog, input: Grant, username: string, privilege: string, database: string, table: string)
    ensures Allowed(WithoutGrant(c, input), username, privilege, database, table) <==>
            || username == "root"
            || exists g :: g in c.grants && g.username == username &&
                           StillConfers(g, input, ToUpper(privilege), database, table)
  {
    var p := ToUpper(privilege);
    if g :| g in c.grants && g.username == username && StillConfers(g, input, p, database, table) {
      ReducedStays(c, input, g);
    }
    if h :| h in WithoutGrant(c, input).grants && h.username == username && Confers(h, p, database, table) {
      var g := LeftIsReduced(c, input, h);
      assert StillConfers(g, input, p, database, table);
    }
  }

  /** The grant gives a privilege on the resource in spite of a revoke of it: it has another key and holds the privilege
      or ALL, or it has the same key and holds an ALL that is not revoked. */
  ghost predicate Withstands(g: Grant, input: Grant, p: string) {
    && Covers(g, input.database, input.table)
    && if SameKey(g, Normal(input)) then "ALL" in g.privileges && "ALL" !in UpperAll(input.privileges)
       else "ALL" in g.privileges || p in g.privileges
  }

  lemma WithstandsExactly(g: Grant, input: Grant, p: string)
    requires g.privileges != [] && p in UpperAll(input.privileges) && p != "CONNECT"
    ensures StillConfers(g, input, p, input.database, input.table) <==> Withstands(g, input, p)
  {
    KeepIn(g.privileges, NotIn(UpperAll(input.privileges)));
  }

  /** After a REVOKE the user may still do on its resource what was revoked if and only if one of the user's grants
      withstands it. */
  lemma RevokeDeniesExactly(c: Catalog, input: Grant, k: nat)
    requires Inv(c) && k < |input.privileges| && ToUpper(input.privileges[k]) != "CONNECT" && input.username != "root"
    ensures Allowed(WithoutGrant(c, input), input.username, input.privileges[k], input.database, input.table) <==>
            exists g :: g in c.grants && g.username == input.username &&
                          Withstands(g, input, ToUpper(input.privileges[k]))
  {
    var p := ToUpper(input.privileges[k]);
    assert UpperAll(input.privileges)[k] == p;
    RevokeMeans(c, input, input.username, input.privileges[k], input.database, input.table);
    forall g | g in c.grants
      ensures StillConfers(g, input, p, input.database, input.table) <==> Withstands(g, input, p)
    {
      WithstandsExactly(g, input, p);
    }
  }

  lemma {:induction false} KeepAll<T>(s: seq<T>, p: T -> bool)
    requires forall x | x in s :: p(x)
    ensures Keep(s, p) == s
  {
    if s != [] { KeepAll(s[1..], p); }
  }

  lemma {:induction false} KeepNone<T>(s: seq<T>, p: T -> bool)
    requires forall x | x in s :: !p(x)
    ensures Keep(s, p) == []
  {
    if s != [] { KeepNone(s[1..], p); }
  }

  lemma {:induction false} KeepAppend<T>(s: seq<T>, x: T, p: T -> bool)
    ensures Keep(s + [x], p) == Keep(s, p) + (if p(x) then [x] else [])
  {
    if s == [] {
      assert s + [x] == [x] && [x][1..] == [];
    } else {
      var first := if p(s[0]) then [s[0]] else [];
      assert (s + [x])[0] == s[0] && (s + [x])[1..] == s[1..] + [x];
      KeepAppend(s[1..], x, p);
      assert Keep(s + [x], p) == first + Keep(s[1..] + [x], p);
    }
  }

  /** Revoking what was just granted under a new key gives the catalog back. */
  lemma RevokeUndoesGrant(c: Catalog, input: Grant)
    requires Inv(c) && FindKey(c.grants, Normal(input)) == |c.grants|
    ensures WithoutGrant(WithGrant(c, input), input) == c
  {
    var g := Normal(input);
    var granted := WithGrant(c, input);
    var all := ReducedAll(granted.grants, input);
    KeepNone(g.privileges, NotIn(UpperAll(input.privileges)));
    UpperTwice(input.scope);
    var empty := Reduced(g, input);
    assert all == c.grants + [empty];
    KeepAppend(c.grants, empty, NotEmpty());
    KeepAll(c.grants, NotEmpty());
  }

  // ---------------------------------------------------------------- the invariant

  lemma HasUserAfter(c: Catalog, c': Catalog, username: string)
    requires HasUser(c, username)
    requires forall u | u in c.users && u.username == username :: u in c'.users
    ensures HasUser(c', username)
  {
    var u :| u in c.users && u.username == username;
    assert u in c'.users;
  }

  lemma MergeKeeps(c: Catalog, g: Grant, i: nat)
    requires Inv(c) && i < |c.grants| && SameKey(c.grants[i], g) && g.privileges != []
    ensures Inv(c.(grants := c.grants[i := c.grants[i].(privileges := Merge(c.grants[i].privileges, g.privileges))]))
  {
    var merged := Merge(c.grants[i].privileges, g.privileges);
    MergeIn(c.grants[i].privileges, g.privileges);
    assert g.privileges[0] in merged;
    var c' := c.(grants := c.grants[i := c.grants[i].(privileges := merged)]);
    forall h | h in c'.grants ensures HasUser(c', h.username) && WellScoped(h) && h.privileges != [] {
      var k :| 0 <= k < |c'.grants| && c'.grants[k] == h;
      assert c.grants[k] in c.grants;
    }
  }

  lemma NewKeyKeeps(c: Catalog, g: Grant)
    requires Inv(c) && HasUser(c, g.username) && WellScoped(g) && g.privileges != []
    requires forall j | 0 <= j < |c.grants| :: !SameKey(c.grants[j], g)
    ensures Inv(c.(grants := c.grants + [g]))
  {
  }

  lemma GrantKeeps(c: Catalog, input: Grant)
    requires Inv(c) && HasUser(c, input.username) && WellScoped(Normal(input)) && input.privileges != []
    ensures Inv(WithGrant(c, input))
  {
    var g := Normal(input);
    var i := FindKey(c.grants, g);
    if i < |c.grants| { MergeKeeps(c, g, i); } else { NewKeyKeeps(c, g); }
  }

  lemma RevokeKeeps(c: Catalog, input: Grant)
    requires Inv(c)
    ensures Inv(WithoutGrant(c, input))
  {
    var all := ReducedAll(c.grants, input);
    var r := (g: Grant, h: Grant) => !SameKey(g, h);
    assert Pairwise(all, r);
    KeepPairwise(all, NotEmpty(), r);
    KeepIn(all, NotEmpty());
    var c' := WithoutGrant(c, input);
    forall h | h in c'.grants ensures HasUser(c', h.username) && WellScoped(h) && h.privileges != [] {
      var k :| 0 <= k < |all| && all[k] == h;
      assert c.grants[k] in c.grants;
    }
  }

  lemma CreateUserKeeps(c: Catalog, username: string)
    requires Inv(c) && !HasUser(c, username)
    ensures Inv(WithUser(c, username))
  {
    var c' := WithUser(c, username);
    forall i | 0 <= i < |c.users| ensures c.users[i].username != username && c.users[i].id < c.nextUserId {
      assert c.users[i] in c.users;
    }
    forall g | g in c'.grants ensures HasUser(c', g.username) {
      HasUserAfter(c, c', g.username);
    }
  }

  lemma DropUserKeeps(c: Catalog, username: string)
    requires Inv(c)
    ensures Inv(WithoutUser(c, username)) && !HasUser(WithoutUser(c, username), username)
  {
    var c' := WithoutUser(c, username);
    KeepIn(c.users, NotNamed(username));
    KeepIn(c.grants, NotHeldBy(username));
    KeepPairwise(c.users, NotNamed(username), (u: User, v: User) => u.username != v.username && u.id != v.id);
    KeepPairwise(c.grants, NotHeldBy(username), (g: Grant, h: Grant) => !SameKey(g, h));
    forall g | g in c'.grants ensures HasUser(c', g.username) {
      HasUserAfter(c, c', g.username);
    }
  }

  lemma AddDatabaseKeeps(c: Catalog, database: string)
    requires Inv(c) && database != "" && database !in c.databases
    ensures Inv(c.(databases := c.databases + [database]))
  {
    var c' := c.(databases := c.databases + [database]);
    forall g | g in c'.grants ensures HasUser(c', g.username) {
      HasUserAfter(c, c', g.username);
    }
  }

  lemma RemoveDatabaseKeeps(c: Catalog, database: string)
    requires Inv(c)
    ensures Inv(WithoutDatabase(c, database)) && database !in WithoutDatabase(c, database).databases
    ensures forall g | g in WithoutDatabase(c, database).grants :: g.database != database
  {
    var c' := WithoutDatabase(c, database);
    KeepIn(c.databases, NotIn([database]));
    KeepIn(c.grants, NotInside(database));
    KeepPairwise(c.databases, NotIn([database]), (d: string, e: string) => d != e);
    KeepPairwise(c.grants, NotInside(database), (g: Grant, h: Grant) => !SameKey(g, h));
    forall g | g in c'.grants ensures HasUser(c', g.username) {
      HasUserAfter(c, c', g.username);
    }
  }

  // ---------------------------------------------------------------- the catalog object

  predicate ValidIdentifier(value: string) {
    && 0 < |value| <= 64 && IsWordStart(value[0])
    && forall k | 0 < k < |value| :: IsWordChar(value[k])
  }

  /** `saved` stands for the outcome of writing the catalog file, `hashed` for that of hashing a password. */
  class SystemCatalog {
    var nextUserId: nat
    var users: seq<User>
    var databases: seq<string>
    var grants: seq<Grant>

    ghost function View(): Catalog
      reads this
    {
      Catalog(nextUserId, users, databases, grants)
    }

    constructor ()
      ensures Inv(View()) && users == [User(1, "root")] && databases == ["sys"] && grants == []
    {
      nextUserId, users, databases, grants := 2, [User(1, "root")], ["sys"], [];
    }

    method UserExists(username: string) returns (found: bool)
      ensures found == HasUser(View(), username)
    {
      for i := 0 to |users|
        invariant forall j | 0 <= j < i :: users[j].username != username
      {
        if users[i].username == username {
          assert users[i] in users;
          return true;
        }
      }
      return false;
    }

    method CreateUser(username: string, password: string, hashed: bool, saved: bool) returns (rc: RC)
      requires Inv(View())
      modifies this
      ensures Inv(View())
      ensures rc == if !ValidIdentifier(username) then INVALID_ARGUMENT
                    else if old(HasUser(View(), username)) then USER_EXIST
                    else if !(8 <= |password| <= 1024) then INVALID_ARGUMENT
                    else if !hashed then INTERNAL
                    else if saved then SUCCESS else IOERR_WRITE
      ensures rc == SUCCESS || rc == IOERR_WRITE ==> View() == WithUser(old(View()), username)
      ensures rc != SUCCESS && rc != IOERR_WRITE ==> View() == old(View()).(nextUserId := nextUserId)
      ensures nextUserId == old(nextUserId) +
                (if ValidIdentifier(username) && !old(HasUser(View(), username)) then 1 else 0)
    {
      if !ValidIdentifier(username) {
        return INVALID_ARGUMENT;
      }
      var exists_ := UserExists(username);
      if exists_ {
        return USER_EXIST;
      }
      CreateUserKeeps(View(), username);
      var user := User(nextUserId, username);
      nextUserId := nextUserId + 1;
      if |password| < 8 || |password| > 1024 {
        NumberSkipped(old(View()));
        return INVALID_ARGUMENT;
      }
      if !hashed {
        NumberSkipped(old(View()));
        return INTERNAL;
      }
      users := users + [user];
      return if saved then SUCCESS else IOERR_WRITE;
    }

    method DropUser(username: string, saved: bool) returns (rc: RC)
      requires Inv(View())
      modifies this
      ensures Inv(View())
      ensures rc == if username == "root" then AUTHORIZATION_DENIED
                    else if !old(HasUser(View(), username)) then USER_NOT_EXIST
                    else if saved then SUCCESS else IOERR_WRITE
      ensures View() == if rc == SUCCESS || rc == IOERR_WRITE then WithoutUser(old(View()), username) else old(View())
    {
      if username == "root" {
        return AUTHORIZATION_DENIED;
      }
      DropUserKeeps(View(), username);
      KeepShrinks(users, NotNamed(username));
      var oldSize := |users|;
      users := Keep(users, NotNamed(username));
      if oldSize == |users| {
        return USER_NOT_EXIST;
      }
      grants := Keep(grants, NotHeldBy(username));
      return if saved then SUCCESS else IOERR_WRITE;
    }

    method AddDatabase(database: string, saved: bool) returns (rc: RC)
      requires Inv(View())
      modifies this
      ensures Inv(View())
      ensures rc == if !ValidIdentifier(database) then INVALID_ARGUMENT
                    else if database in old(databases) then SCHEMA_DB_EXIST
                    else if saved then SUCCESS else IOERR_WRITE
      ensures View() == if rc == SUCCESS || rc == IOERR_WRITE
                        then old(View()).(databases := old(databases) + [database]) else old(View())
    {
      if !ValidIdentifier(database) {
        return INVALID_ARGUMENT;
      }
      if database in databases {
        return SCHEMA_DB_EXIST;
      }
      AddDatabaseKeeps(View(), database);
      databases := databases + [database];
      return if saved then SUCCESS else IOERR_WRITE;
    }

    method RemoveDatabase(database: string, saved: bool) returns (rc: RC)
      requires Inv(View())
      modifies this
      ensures Inv(View())
      ensures rc == if database == "sys" then AUTHORIZATION_DENIED
                    else if database !in old(databases) then SCHEMA_DB_NOT_EXIST
                    else if saved then SUCCESS else IOERR_WRITE
      ensures View() == if rc == SUCCESS || rc == IOERR_WRITE then WithoutDatabase(old(View()), database)
                        else old(View())
    {
      if database == "sys" {
        return AUTHORIZATION_DENIED;
      }
      if database !in databases {
        return SCHEMA_DB_NOT_EXIST;
      }
      RemoveDatabaseKeeps(View(), database);
      databases := Keep(databases, NotIn([database]));
      grants := Keep(grants, NotInside(database));
      return if saved then SUCCESS else IOERR_WRITE;
    }

    method GrantPrivileges(input: Grant, saved: bool) returns (rc: RC)
      modifies this`grants
      ensures old(Inv(View())) && WellScoped(Normal(input)) && input.privileges != [] ==> Inv(View())
      ensures rc == if !old(HasUser(View(), input.username)) then USER_NOT_EXIST
                    else if saved then SUCCESS else IOERR_WRITE
      ensures View() == if rc == USER_NOT_EXIST then old(View()) else WithGrant(old(View()), input)
    {
      var known := UserExists(input.username);
      if !known {
        return USER_NOT_EXIST;
      }
      if Inv(View()) && WellScoped(Normal(input)) && input.privileges != [] { GrantKeeps(View(), input); }
      var g := Normal(input);
      var i := 0;
      while i < |grants| && !SameKey(grants[i], g)
        invariant i <= |grants| && forall j | 0 <= j < i :: !SameKey(grants[j], g)
      {
        i := i + 1;
      }
      assert i == FindKey(grants, g);
      if i == |grants| {
        grants := grants + [g];
      } else {
        var merged := MergePrivileges(grants[i].privileges, g.privileges);
        grants := grants[i := grants[i].(privileges := merged)];
      }
      return if saved then SUCCESS else IOERR_WRITE;
    }

    /** The loop of revoke: every grant with the key of the input loses the input's privileges. */
    method Reduce(input: Grant)
      modifies this`grants
      ensures grants == ReducedAll(old(grants), input)
    {
      for i := 0 to |grants|
        invariant |grants| == |old(grants)|
        invariant forall k | 0 <= k < |grants| ::
                  grants[k] == if k < i then Reduced(old(grants)[k], input) else old(grants)[k]
      {
        var g := grants[i];
        if SameKey(g, Normal(input)) {
          grants := grants[i := g.(privileges := Minus(g.privileges, UpperAll(input.privileges)))];
        }
      }
    }

    method RevokePrivileges(input: Grant, saved: bool) returns (rc: RC)
      requires Inv(View())
      modifies this`grants
      ensures Inv(View())
      ensures rc == if saved then SUCCESS else IOERR_WRITE
      ensures View() == WithoutGrant(old(View()), input)
    {
      RevokeKeeps(View(), input);
      Reduce(input);
      grants := Keep(grants, NotEmpty());
      return if saved then SUCCESS else IOERR_WRITE;
    }

    method IsAllowed(username: string, privilege: string, database: string, table: string) returns (allowed: bool)
      ensures allowed == Allowed(View(), username, privilege, database, table)
      ensures username != "root" && ToUpper(privilege) != "CONNECT" ==>
                (allowed <==>
                 exists g :: g in grants && g.username == username
                             && ("ALL" in g.privileges || ToUpper(privilege) in g.privileges)
                             && (|| g.scope == "GLOBAL"
                                 || (g.scope == "DATABASE" && g.database == database)
                                 || (g.scope == "TABLE" && g.database == database && g.table == table)))
    {
      if username != "root" && ToUpper(privilege) != "CONNECT" {
        AllowedExactly(View(), username, privilege, database, table);
      }
      if username == "root" {
        return true;
      }
      var requested := ToUpper(privilege);
      for i := 0 to |grants|
        invariant forall j | 0 <= j < i ::
                  !(grants[j].username == username && Confers(grants[j], requested, database, table))
      {
        var g := grants[i];
        if g.username == username && Confers(g, requested, database, table) {
          assert g in grants;
          return true;
        }
      }
      return false;
    }
  }

  method MergePrivileges(have: seq<string>, more: seq<string>) returns (r: seq<string>)
    ensures r == Merge(have, more)
  {
    r := have;
    for i := 0 to |more|
      invariant Merge(r, more[i..]) == Merge(have, more)
    {
      assert more[i..][1..] == more[i + 1..];
      if more[i] !in r {
        r := r + [more[i]];
      }
    }
  }

  lemma NumberSkipped(c: Catalog)
    requires Inv(c)
    ensures Inv(c.(nextUserId := c.nextUserId + 1))
  {
    var c' := c.(nextUserId := c.nextUserId + 1);
    forall g | g in c'.grants ensures HasUser(c', g.username) {
      HasUserAfter(c, c', g.username);
    }
  }

  lemma {:induction false} KeepShrinks<T>(s: seq<T>, p: T -> bool)
    ensures |Keep(s, p)| <= |s|
    ensures |Keep(s, p)| == |s| <==> forall x | x in s :: p(x)
    ensures |Keep(s, p)| == |s| ==> Keep(s, p) == s
  {
    if s == [] {
    } else {
      KeepShrinks(s[1..], p);
      assert forall x :: x in s <==> x == s[0] || x in s[1..];
      assert s == [s[0]] + s[1..];
    }
  }

  /** One to 64 letters, digits and underscores, of which the first is no digit. */
  lemma IdentifierExactly(value: string)
    ensures ValidIdentifier(value) <==>
            && 1 <= |value| <= 64 && value[0] !in "0123456789"
            && forall k | 0 <= k < |value| ::
                 value[k] in LOWER || value[k] in UPPER || value[k] == '_' || value[k] in "0123456789"
  {
    forall k | 0 <= k < |value|
      ensures IsWordChar(value[k]) <==>
              value[k] in LOWER || value[k] in UPPER || value[k] == '_' || value[k] in "0123456789"
    {
      ClassesExactly(value[k]);
    }
    if value != "" { ClassesExactly(value[0]); }
  }
}
